/** String operations the service relies on: trimming, lower-casing, the order used
    by sort.Strings, and the NUL-separated join behind cache keys. */
module Text {

  const NUL: char := '\0'

  predicate NulFree(s: string) {
    NUL !in s
  }

  /** White space as unicode.IsSpace defines it. */
  predicate IsSpace(c: char) {
    || '\t' <= c <= '\r' || c == ' ' || c == '\U{85}' || c == '\U{A0}' || c == '\U{1680}'
    || '\U{2000}' <= c <= '\U{200A}' || c == '\U{2028}' || c == '\U{2029}' || c == '\U{202F}'
    || c == '\U{205F}' || c == '\U{3000}'
  }

  predicate Trimmed(s: string) {
    s != [] ==> !IsSpace(s[0]) && !IsSpace(s[|s| - 1])
  }

  function TrimLeft(s: string): string {
    if s != [] && IsSpace(s[0]) then TrimLeft(s[1..]) else s
  }

  function TrimRight(s: string): string {
    if s != [] && IsSpace(s[|s| - 1]) then TrimRight(s[..|s| - 1]) else s
  }

  /** strings.TrimSpace */
  function Trim(s: string): string {
    TrimRight(TrimLeft(s))
  }

  lemma {:induction false} TrimRightKeepsFront(s: string)
    requires s != [] ==> !IsSpace(s[0])
    ensures Trimmed(TrimRight(s))
  {
    if s != [] && IsSpace(s[|s| - 1]) {
      assert |s| > 1;
      TrimRightKeepsFront(s[..|s| - 1]);
    }
  }

  lemma {:induction false} TrimLeftStops(s: string)
    ensures TrimLeft(s) != [] ==> !IsSpace(TrimLeft(s)[0])
  {
    if s != [] && IsSpace(s[0]) {
      TrimLeftStops(s[1..]);
    }
  }

  /** Trimming yields a trimmed string and leaves exactly the trimmed strings alone. */
  lemma TrimLaws(s: string)
    ensures Trimmed(Trim(s))
    ensures Trimmed(s) <==> Trim(s) == s
  {
    TrimLeftStops(s);
    TrimRightKeepsFront(TrimLeft(s));
  }

  lemma {:induction false} TrimRightIsPrefix(s: string)
    ensures TrimRight(s) <= s
  {
    if s != [] && IsSpace(s[|s| - 1]) {
      TrimRightIsPrefix(s[..|s| - 1]);
    }
  }

  lemma {:induction false} TrimRightDropsSpace(s: string)
    ensures TrimRight(s) <= s && forall i :: |TrimRight(s)| <= i < |s| ==> IsSpace(s[i])
  {
    if s != [] && IsSpace(s[|s| - 1]) {
      TrimRightDropsSpace(s[..|s| - 1]);
    }
  }

  lemma {:induction false} TrimLeftDropsSpace(s: string) returns (n: nat)
    ensures n <= |s| && TrimLeft(s) == s[n..] && forall i :: 0 <= i < n ==> IsSpace(s[i])
  {
    n := 0;
    if s != [] && IsSpace(s[0]) {
      var m := TrimLeftDropsSpace(s[1..]);
      n := m + 1;
      assert s[1..][m..] == s[n..];
      assert forall i :: 1 <= i < n ==> s[i] == s[1..][i - 1];
    }
  }

  /** Trimming cuts white space off both ends, nothing else and nothing less. */
  lemma TrimExact(s: string) returns (n: nat, m: nat)
    ensures n <= m <= |s| && Trim(s) == s[n..m] && Trimmed(Trim(s))
    ensures forall i :: 0 <= i < n || m <= i < |s| ==> IsSpace(s[i])
  {
    n := TrimLeftDropsSpace(s);
    var rest := TrimLeft(s);
    TrimRightDropsSpace(rest);
    m := n + |TrimRight(rest)|;
    TrimLaws(s);
    assert TrimRight(rest) == rest[..|TrimRight(rest)|] == s[n..m];
    assert forall i :: m <= i < |s| ==> s[i] == rest[i - n];
  }

  /** The white space characters, one by one. */
  lemma SpaceExact(c: char)
    ensures IsSpace(c) <==>
            c as int in {9, 10, 11, 12, 13, 32, 0x85, 0xA0, 0x1680, 0x2000, 0x2001, 0x2002, 0x2003, 0x2004, 0x2005,
                         0x2006, 0x2007, 0x2008, 0x2009, 0x200A, 0x2028, 0x2029, 0x202F, 0x205F, 0x3000}
  {
  }

  lemma {:induction false} TrimLeftKeepsNulFree(s: string)
    requires NulFree(s)
    ensures NulFree(TrimLeft(s))
  {
    if s != [] && IsSpace(s[0]) {
      TrimLeftKeepsNulFree(s[1..]);
    }
  }

  lemma TrimKeepsNulFree(s: string)
    requires NulFree(s)
    ensures NulFree(Trim(s))
  {
    TrimLeftKeepsNulFree(s);
    TrimRightIsPrefix(TrimLeft(s));
  }

  function LowerChar(c: char): char {
    if 'A' <= c <= 'Z' then c - 'A' + 'a' else c
  }

  /** strings.ToLower, on ASCII letters. */
  function Lower(s: string): (r: string)
    ensures |r| == |s|
    ensures forall i :: 0 <= i < |s| ==> r[i] == LowerChar(s[i])
  {
    seq(|s|, i requires 0 <= i < |s| => LowerChar(s[i]))
  }

  /** Exactly the letters A to Z change, each to its lower-case letter. */
  lemma LowerExact(s: string, i: nat)
    requires i < |s|
    ensures 'A' <= s[i] <= 'Z' ==> Lower(s)[i] as int == s[i] as int + 32
    ensures !('A' <= s[i] <= 'Z') ==> Lower(s)[i] == s[i]
  {
  }

  lemma LowerLaws(s: string)
    ensures NulFree(s) ==> NulFree(Lower(s))
    ensures Lower(Lower(s)) == Lower(s)
  {
  }

  // ----- The order of sort.Strings -----

  predicate Before(a: string, b: string) {
    if b == [] then false
    else if a == [] then true
    else if a[0] != b[0] then a[0] < b[0]
    else Before(a[1..], b[1..])
  }

  lemma {:induction false} BeforeTotal(a: string, b: string)
    ensures Before(a, b) || Before(b, a) || a == b
  {
    if a != [] && b != [] && a[0] == b[0] {
      BeforeTotal(a[1..], b[1..]);
      assert a == [a[0]] + a[1..] && b == [b[0]] + b[1..];
    }
  }

  lemma {:induction false} BeforeTransitive(a: string, b: string, c: string)
    requires Before(a, b) && Before(b, c)
    ensures Before(a, c)
  {
    if a != [] && a[0] == b[0] && b[0] == c[0] {
      BeforeTransitive(a[1..], b[1..], c[1..]);
    }
  }

  lemma {:induction false} BeforeIrreflexive(a: string)
    ensures !Before(a, a)
  {
    if a != [] {
      BeforeIrreflexive(a[1..]);
    }
  }

  predicate StrictlySorted(ks: seq<string>) {
    forall i, j :: 0 <= i < j < |ks| ==> Before(ks[i], ks[j])
  }

  function Elements<T(==,!new)>(s: seq<T>): (r: set<T>)
    ensures forall x :: x in r <==> x in s
  {
    set x | x in s
  }

  /** One step of insertion sort. */
  function InsertKey(k: string, ks: seq<string>): (r: seq<string>)
    ensures Elements(r) == Elements(ks) + {k}
  {
    if ks == [] then [k]
    else if Before(k, ks[0]) then [k] + ks
    else
      assert ks == [ks[0]] + ks[1..];
      [ks[0]] + InsertKey(k, ks[1..])
  }

  lemma {:induction false} InsertKeySorted(k: string, ks: seq<string>)
    requires StrictlySorted(ks) && k !in ks
    ensures StrictlySorted(InsertKey(k, ks))
  {
    if ks != [] {
      if Before(k, ks[0]) {
        forall j | 0 <= j < |ks| ensures Before(k, ks[j]) {
          if j > 0 { BeforeTransitive(k, ks[0], ks[j]); }
        }
      } else {
        BeforeTotal(k, ks[0]);
        InsertKeySorted(k, ks[1..]);
        var rest := InsertKey(k, ks[1..]);
        forall j | 0 <= j < |rest| ensures Before(ks[0], rest[j]) {
          assert rest[j] in Elements(rest);
          if rest[j] != k {
            assert rest[j] in ks[1..];
          }
        }
      }
    }
  }

  /** sort.Strings on keys without repetition. */
  function SortKeys(ks: seq<string>): (r: seq<string>)
    ensures Elements(r) == Elements(ks)
  {
    if ks == [] then []
    else
      assert ks == [ks[0]] + ks[1..];
      InsertKey(ks[0], SortKeys(ks[1..]))
  }

  predicate Distinct<T(==)>(s: seq<T>) {
    forall i, j :: 0 <= i < j < |s| ==> s[i] != s[j]
  }

  lemma {:induction false} SortKeysSorted(ks: seq<string>)
    requires Distinct(ks)
    ensures StrictlySorted(SortKeys(ks))
  {
    if ks != [] {
      SortKeysSorted(ks[1..]);
      assert ks[0] !in ks[1..];
      assert ks[0] !in Elements(SortKeys(ks[1..]));
      InsertKeySorted(ks[0], SortKeys(ks[1..]));
    }
  }

  lemma NoElements(b: seq<string>)
    ensures b == [] <==> Elements(b) == {}
  {
    if b != [] {
      assert b[0] in Elements(b);
    }
  }

  /** A strictly sorted sequence is determined by its elements. */
  lemma {:induction false} SortedUnique(a: seq<string>, b: seq<string>)
    requires StrictlySorted(a) && StrictlySorted(b) && Elements(a) == Elements(b)
    ensures a == b
  {
    NoElements(a);
    NoElements(b);
    if a != [] {
      assert a[0] in Elements(a) && a[0] in b;
      assert b[0] in Elements(b) && b[0] in a;
      if a[0] != b[0] {
        var i :| 0 <= i < |a| && a[i] == b[0];
        var j :| 0 <= j < |b| && b[j] == a[0];
        BeforeTransitive(a[0], a[i], a[0]);
        BeforeIrreflexive(a[0]);
      }
      HeadNotInTail(a);
      HeadNotInTail(b);
      assert a == [a[0]] + a[1..] && b == [b[0]] + b[1..];
      assert Elements(a[1..]) == Elements(a) - {a[0]};
      assert Elements(b[1..]) == Elements(b) - {b[0]};
      SortedUnique(a[1..], b[1..]);
    }
  }

  lemma HeadNotInTail(a: seq<string>)
    requires StrictlySorted(a) && a != []
    ensures a[0] !in a[1..]
  {
    BeforeIrreflexive(a[0]);
  }

  /** The elements of a finite set in sorted order. */
  ghost function Sorted(s: set<string>): (ks: seq<string>)
    ensures StrictlySorted(ks) && Elements(ks) == s
  {
    if s == {} then []
    else
      var x :| x in s;
      var rest := Sorted(s - {x});
      assert x !in Elements(rest);
      InsertKeySorted(x, rest);
      InsertKey(x, rest)
  }

  // ----- Separators -----

  /** Splitting at the first separator is unambiguous when the left parts lack it. */
  lemma {:induction false} FirstSegment(c: char, a: string, x: string, b: string, y: string)
    requires c !in a && c !in b
    requires a + [c] + x == b + [c] + y
    ensures a == b && x == y
  {
    var u, v := a + [c] + x, b + [c] + y;
    assert u[|a|] == c && v[|b|] == c;
    assert |a| == |b|;
    assert a == u[..|a|] && b == v[..|b|];
    assert x == u[|a| + 1..] && y == v[|b| + 1..];
  }

  lemma ThreeSegments(a: string, b: string, c: string, x: string, a2: string, b2: string, c2: string, y: string)
    requires NulFree(a) && NulFree(b) && NulFree(c) && NulFree(a2) && NulFree(b2) && NulFree(c2)
    requires a + [NUL] + b + [NUL] + c + [NUL] + x == a2 + [NUL] + b2 + [NUL] + c2 + [NUL] + y
    ensures a == a2 && b == b2 && c == c2 && x == y
  {
    var u, v := c + [NUL] + x, c2 + [NUL] + y;
    assert a + [NUL] + b + [NUL] + c + [NUL] + x == a + [NUL] + (b + [NUL] + u);
    assert a2 + [NUL] + b2 + [NUL] + c2 + [NUL] + y == a2 + [NUL] + (b2 + [NUL] + v);
    FirstSegment(NUL, a, b + [NUL] + u, a2, b2 + [NUL] + v);
    FirstSegment(NUL, b, u, b2, v);
    FirstSegment(NUL, c, x, c2, y);
  }

  /** strings.Join(parts, "\x00") */
  function Join(parts: seq<string>): string {
    if |parts| == 0 then ""
    else if |parts| == 1 then parts[0]
    else parts[0] + [NUL] + Join(parts[1..])
  }

  predicate AllNulFree(parts: seq<string>) {
    forall i :: 0 <= i < |parts| ==> NulFree(parts[i])
  }

  lemma JoinHasSeparator(p: seq<string>)
    requires p != [] && AllNulFree(p)
    ensures NUL in Join(p) <==> |p| > 1
  {
    if |p| > 1 {
      assert Join(p)[|p[0]|] == NUL;
    }
  }

  lemma {:induction false} JoinInjective(p: seq<string>, q: seq<string>)
    requires p != [] && q != [] && AllNulFree(p) && AllNulFree(q)
    requires Join(p) == Join(q)
    ensures p == q
  {
    JoinHasSeparator(p);
    JoinHasSeparator(q);
    if |p| > 1 && |q| > 1 {
      FirstSegment(NUL, p[0], Join(p[1..]), q[0], Join(q[1..]));
      JoinInjective(p[1..], q[1..]);
      assert p == [p[0]] + p[1..] && q == [q[0]] + q[1..];
    }
  }

  /** strings.HasPrefix(key, prefix) */
  predicate HasPrefix(key: string, prefix: string) {
    prefix <= key
  }

  /** The part of a key before its first NUL, as strings.Cut returns it. */
  function Cut(key: string): (r: string)
    ensures NulFree(r)
    ensures r == key || HasPrefix(key, r + [NUL])
  {
    if key == [] || key[0] == NUL then []
    else
      assert key == [key[0]] + key[1..];
      [key[0]] + Cut(key[1..])
  }

  lemma {:induction false} CutAtFirst(t: string, rest: string)
    requires NulFree(t)
    ensures Cut(t + [NUL] + rest) == t
  {
    var key := t + [NUL] + rest;
    if t != [] {
      assert key[1..] == t[1..] + [NUL] + rest;
      CutAtFirst(t[1..], rest);
      assert t == [t[0]] + t[1..];
    }
  }
}
