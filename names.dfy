/**
  Name and path handling of the FAT12 accessor: remove_spaces, add_period and
  count_tokens in fat12.c, and the splitting of a path into components that
  find_directory_entry does with strtok.

  A C string buffer is modelled as an array of characters holding a NUL at
  position n and none before it (IsCString).
*/
module Names {

  const NUL: char := '\0'

  /** a[..n] is a NUL-terminated string. */
  ghost predicate IsCString(a: array<char>, n: nat)
    reads a
  {
    n < a.Length && a[n] == NUL && forall k :: 0 <= k < n ==> a[k] != NUL
  }

  /** s with every space character removed, the other characters kept in order. */
  function WithoutSpaces(s: string): (r: string)
    ensures |r| <= |s|
    ensures forall k :: 0 <= k < |r| ==> r[k] != ' '
  {
    if s == [] then []
    else WithoutSpaces(s[..|s| - 1]) + (if s[|s| - 1] == ' ' then [] else [s[|s| - 1]])
  }

  /** Removing spaces works piecewise: it distributes over concatenation. */
  lemma {:induction false} WithoutSpacesAppend(s: string, t: string)
    ensures WithoutSpaces(s + t) == WithoutSpaces(s) + WithoutSpaces(t)
    decreases |t|
  {
    if t != [] {
      var t', c := t[..|t| - 1], t[|t| - 1];
      var tail := if c == ' ' then [] else [c];
      assert (s + t)[..|s + t| - 1] == s + t';
      assert (s + t)[|s + t| - 1] == c;
      assert WithoutSpaces(s + t) == WithoutSpaces(s + t') + tail;
      assert WithoutSpaces(t) == WithoutSpaces(t') + tail;
      WithoutSpacesAppend(s, t');
    } else {
      assert s + t == s;
    }
  }

  /** A string without spaces is left as it is. */
  lemma {:induction false} WithoutSpacesOfSpaceFree(s: string)
    requires forall k :: 0 <= k < |s| ==> s[k] != ' '
    ensures WithoutSpaces(s) == s
    decreases |s|
  {
    if s != [] {
      WithoutSpacesOfSpaceFree(s[..|s| - 1]);
    }
  }

  /** Removing spaces twice is the same as removing them once. */
  lemma WithoutSpacesIdempotent(s: string)
    ensures WithoutSpaces(WithoutSpaces(s)) == WithoutSpaces(s)
  {
    WithoutSpacesOfSpaceFree(WithoutSpaces(s));
  }

  /** Every character other than a space occurs as often as before. */
  lemma {:induction false} WithoutSpacesKeepsOthers(s: string, c: char)
    requires c != ' '
    ensures multiset(WithoutSpaces(s))[c] == multiset(s)[c]
    decreases |s|
  {
    if s != [] {
      var s' := s[..|s| - 1];
      assert s == s' + [s[|s| - 1]];
      WithoutSpacesKeepsOthers(s', c);
    }
  }

  /** remove_spaces: compacts the string in place with a read pointer j and a
      write pointer i, then terminates it at i. Bytes after the new terminator
      are left as they were. */
  method RemoveSpaces(a: array<char>, ghost n: nat)
    requires IsCString(a, n)
    modifies a
    ensures var r := WithoutSpaces(old(a[..n]));
      && a[..|r|] == r
      && a[|r|] == NUL
      && forall k :: |r| < k < a.Length ==> a[k] == old(a[k])
  {
    ghost var s := a[..n];
    var i, j := 0, 0;
    while a[j] != NUL
      invariant 0 <= i <= j <= n
      invariant a[..i] == WithoutSpaces(s[..j])
      invariant forall k :: j <= k < a.Length ==> a[k] == old(a[k])
      invariant forall k :: i < k < a.Length ==> a[k] == old(a[k])
      decreases n - j
    {
      assert s[..j + 1] == s[..j] + [s[j]];
      WithoutSpacesAppend(s[..j], [s[j]]);
      a[i] := a[j];
      j := j + 1;
      if a[i] != ' ' {
        i := i + 1;
      }
    }
    assert s[..j] == s;
    a[i] := NUL;
  }

  /** The file name with a period inserted after its eighth character. */
  function WithPeriod(s: string): (r: string)
    requires |s| >= 8
    ensures |r| == |s| + 1
    ensures r[8] == '.'
    ensures r[..8] + r[9..] == s
  {
    s[..8] + "." + s[8..]
  }

  /** Exactly one period is added and nothing else changes in count. */
  lemma WithPeriodAddsOnePeriod(s: string, c: char)
    requires |s| >= 8
    ensures multiset(WithPeriod(s))[c] == multiset(s)[c] + (if c == '.' then 1 else 0)
  {
    assert s == s[..8] + s[8..];
  }

  /** add_period: copies the first eight characters to a scratch string, appends
      ".", appends the rest of the string (strcat copies up to the NUL) and copies
      the result back over the argument. */
  method AddPeriod(a: array<char>, ghost n: nat)
    requires IsCString(a, n)
    requires 8 <= n && n + 1 < a.Length
    modifies a
    ensures a[..n + 1] == WithPeriod(old(a[..n]))
    ensures a[n + 1] == NUL
    ensures forall k :: n + 1 < k < a.Length ==> a[k] == old(a[k])
  {
    var strC := a[..8];
    strC := strC + ['.'];
    var k := 8;
    while a[k] != NUL
      invariant 8 <= k <= n
      invariant strC == a[..8] + ['.'] + a[8..k]
      decreases n - k
    {
      strC := strC + [a[k]];
      k := k + 1;
    }
    assert |strC| == n + 1;
    forall m | 0 <= m < |strC| {
      a[m] := strC[m];
    }
    a[|strC|] := NUL;
  }

  /** count_tokens: the number of '/' characters in the path. */
  method CountTokens(path: string) returns (count: nat)
    ensures count == multiset(path)['/']
  {
    count := 0;
    var p := 0;
    while p < |path|
      invariant p <= |path|
      invariant count == multiset(path[..p])['/']
    {
      assert path[..p + 1] == path[..p] + [path[p]];
      if path[p] == '/' {
        count := count + 1;
      }
      p := p + 1;
    }
    assert path[..p] == path;
  }

  /** Length of the leading run of characters other than '/'. */
  function NextSlash(s: string): (k: nat)
    ensures k <= |s|
    ensures k < |s| ==> s[k] == '/'
    ensures forall m :: 0 <= m < k ==> s[m] != '/'
  {
    if s == [] || s[0] == '/' then 0 else 1 + NextSlash(s[1..])
  }

  /** A path component: non-empty and free of '/'. */
  predicate IsComponent(c: string) {
    |c| > 0 && forall m :: 0 <= m < |c| ==> c[m] != '/'
  }

  /** The successive tokens strtok(path, "/") returns: the maximal runs of
      characters other than '/', in order. */
  function Tokens(path: string): (r: seq<string>)
    ensures forall t :: 0 <= t < |r| ==> IsComponent(r[t])
    decreases |path|
  {
    if path == [] then []
    else if path[0] == '/' then Tokens(path[1..])
    else [path[..NextSlash(path)]] + Tokens(path[NextSlash(path)..])
  }

  /** The path "/c1/c2/.../cn" built from its components. */
  function JoinPath(cs: seq<string>): string {
    if cs == [] then [] else "/" + cs[0] + JoinPath(cs[1..])
  }

  /** A path of one or more components: it starts with '/', does not end with
      '/', and never holds two '/' in a row. */
  predicate IsComponentPath(p: string) {
    && |p| >= 2
    && p[0] == '/'
    && p[|p| - 1] != '/'
    && forall k :: 0 <= k < |p| - 1 ==> NoDoubleSlashAt(p, k)
  }

  /** The character after a '/' at index k is not '/' again. */
  predicate NoDoubleSlashAt(p: string, k: int) {
    0 <= k < |p| - 1 && p[k] == '/' ==> p[k + 1] != '/'
  }

  /** The paths the accessor is called with: the root "/" or a component path. */
  predicate WellFormedPath(p: string) {
    p == "/" || IsComponentPath(p)
  }

  /** Splitting a joined path gives the components back. */
  lemma {:induction false} TokensOfJoinPath(cs: seq<string>)
    requires forall i :: 0 <= i < |cs| ==> IsComponent(cs[i])
    ensures Tokens(JoinPath(cs)) == cs
    decreases |cs|
  {
    if cs != [] {
      var c, rest := cs[0], JoinPath(cs[1..]);
      var p := JoinPath(cs);
      assert p == "/" + (c + rest);
      assert p[1..] == c + rest;
      assert rest == [] || rest[0] == '/';
      NextSlashOfComponent(c, rest);
      assert (c + rest)[..|c|] == c;
      assert (c + rest)[|c|..] == rest;
      TokensOfJoinPath(cs[1..]);
    }
  }

  lemma {:induction false} NextSlashOfComponent(c: string, rest: string)
    requires IsComponent(c)
    requires rest == [] || rest[0] == '/'
    ensures NextSlash(c + rest) == |c|
    decreases |c|
  {
    if |c| > 1 {
      assert (c + rest)[1..] == c[1..] + rest;
      NextSlashOfComponent(c[1..], rest);
    } else {
      assert (c + rest)[1..] == rest;
    }
  }

  /** Joining the tokens of a component path gives the path back. */
  lemma {:induction false} JoinPathOfTokens(p: string)
    requires IsComponentPath(p)
    ensures JoinPath(Tokens(p)) == p
    decreases |p|
  {
    var s := p[1..];
    var k := NextSlash(s);
    var q := s[k..];
    TokensOfComponentPath(p);
    JoinPathCons(s[..k], Tokens(q));
    if k < |s| {
      assert q == p[1 + k..];
      SuffixIsComponentPath(p, 1 + k);
      JoinPathOfTokens(q);
    } else {
      assert q == [];
    }
    SplitAfterSlash(p, k);
  }

  lemma SplitAfterSlash(p: string, k: nat)
    requires |p| >= 1 && p[0] == '/' && k <= |p| - 1
    ensures p == "/" + p[1..][..k] + p[1..][k..]
  {
    var s := p[1..];
    assert s == s[..k] + s[k..];
    assert p == [p[0]] + s;
  }

  /** The first token of a component path runs from its second character to
      the next '/'. */
  lemma TokensOfComponentPath(p: string)
    requires IsComponentPath(p)
    ensures var s := p[1..]; var k := NextSlash(s);
      && 0 < k && Tokens(p) == [s[..k]] + Tokens(s[k..])
  {
    var s := p[1..];
    assert NoDoubleSlashAt(p, 0);
    assert s[0] == p[1] != '/';
    assert Tokens(p) == Tokens(s);
  }

  lemma JoinPathCons(c: string, cs: seq<string>)
    ensures JoinPath([c] + cs) == "/" + c + JoinPath(cs)
  {
    assert ([c] + cs)[1..] == cs;
  }

  /** A suffix of a component path that starts at a '/' before its last
      character is a component path too. */
  lemma SuffixIsComponentPath(p: string, i: nat)
    requires IsComponentPath(p) && 0 < i < |p| && p[i] == '/'
    ensures IsComponentPath(p[i..])
  {
    var q := p[i..];
    assert q[|q| - 1] == p[|p| - 1];
    forall m | 0 <= m < |q| - 1 ensures NoDoubleSlashAt(q, m) {
      assert NoDoubleSlashAt(p, i + m);
    }
  }

  /** A joined path holds one '/' per component. */
  lemma {:induction false} SlashesOfJoinPath(cs: seq<string>)
    requires forall i :: 0 <= i < |cs| ==> IsComponent(cs[i])
    ensures multiset(JoinPath(cs))['/'] == |cs|
    decreases |cs|
  {
    if cs != [] {
      SlashesOfJoinPath(cs[1..]);
      assert '/' !in cs[0];
      assert JoinPath(cs) == "/" + cs[0] + JoinPath(cs[1..]);
    }
  }

  /** count_tokens equals the number of strtok tokens for a component path;
      for the root path "/" it is one while there is no token at all. */
  lemma TokenCountOfWellFormedPath(p: string)
    requires WellFormedPath(p)
    ensures p == "/" ==> Tokens(p) == [] && multiset(p)['/'] == 1
    ensures p != "/" ==> |Tokens(p)| >= 1 && multiset(p)['/'] == |Tokens(p)|
  {
    if p == "/" {
      assert p[1..] == [];
    } else {
      JoinPathOfTokens(p);
      SlashesOfJoinPath(Tokens(p));
    }
  }
}
