/** UTF-8 text as bytes: well-formedness as in sections 3 and 4 of RFC 3629,
    the longest well-formed prefix, and character boundaries. */
module Utf8 {
  import opened Tasks

  /** A continuation byte. */
  predicate Cont(b: byte) {
    0x80 <= b <= 0xBF
  }

  predicate SecondOfThree(b0: byte, b1: byte) {
    && Cont(b1)
    && (b0 == 0xE0 ==> b1 >= 0xA0)
    && (b0 == 0xED ==> b1 <= 0x9F)
  }

  predicate SecondOfFour(b0: byte, b1: byte) {
    && Cont(b1)
    && (b0 == 0xF0 ==> b1 >= 0x90)
    && (b0 == 0xF4 ==> b1 <= 0x8F)
  }

  /** Length of the well-formed character at the head of s, 0 if there is
      none. */
  function CharLen(s: Bytes): (n: nat)
    ensures n <= 4 && n <= |s|
  {
    if s == [] then 0
    else if s[0] <= 0x7F then 1
    else if 0xC2 <= s[0] <= 0xDF then (if |s| > 1 && Cont(s[1]) then 2 else 0)
    else if 0xE0 <= s[0] <= 0xEF then (if |s| > 2 && SecondOfThree(s[0], s[1]) && Cont(s[2]) then 3 else 0)
    else if 0xF0 <= s[0] <= 0xF4 then (if |s| > 3 && SecondOfFour(s[0], s[1]) && Cont(s[2]) && Cont(s[3]) then 4 else 0)
    else 0
  }

  predicate WellFormed(s: Bytes)
    decreases |s|
  {
    s == [] || (CharLen(s) > 0 && WellFormed(s[CharLen(s)..]))
  }

  /** How far from_utf8 gets. */
  function ValidUpTo(s: Bytes): (n: nat)
    ensures n <= |s|
    decreases |s|
  {
    var n := CharLen(s);
    if n == 0 then 0 else n + ValidUpTo(s[n..])
  }

  /** The test of is_char_boundary. */
  predicate Boundary(s: Bytes, i: nat) {
    i == 0 || i == |s| || (i < |s| && !Cont(s[i]))
  }

  /** The last boundary at or before m. */
  function Floor(s: Bytes, m: nat): (i: nat)
    ensures i <= m && i <= |s| && Boundary(s, i)
    ensures forall j :: i < j <= m && j <= |s| ==> !Boundary(s, j)
    decreases m
  {
    if m >= |s| then |s| else if Boundary(s, m) then m else Floor(s, m - 1)
  }

  // ---------------------------------------------------------------------
  // Laws
  // ---------------------------------------------------------------------

  lemma {:induction false} CharLenOfPrefix(s: Bytes, m: nat)
    requires CharLen(s) > 0 && m <= |s|
    ensures CharLen(s[..m]) == if m >= CharLen(s) then CharLen(s) else 0
  {
  }

  lemma {:induction false} CharLenOfAppend(s: Bytes, t: Bytes)
    requires CharLen(s) > 0
    ensures CharLen(s + t) == CharLen(s)
  {
  }

  lemma {:induction false} WellFormedAppend(a: Bytes, b: Bytes)
    requires WellFormed(a)
    ensures WellFormed(a + b) <==> WellFormed(b)
    ensures ValidUpTo(a + b) == |a| + ValidUpTo(b)
    decreases |a|
  {
    if a == [] {
      assert a + b == b;
    } else {
      var n := CharLen(a);
      CharLenOfAppend(a, b);
      assert (a + b)[n..] == a[n..] + b;
      WellFormedAppend(a[n..], b);
    }
  }

  lemma {:induction false} ValidPrefix(s: Bytes)
    ensures WellFormed(s[..ValidUpTo(s)])
    ensures CharLen(s[ValidUpTo(s)..]) == 0
    decreases |s|
  {
    var n := CharLen(s);
    var v := ValidUpTo(s);
    if n == 0 {
      assert s[0..] == s;
    } else {
      ValidPrefix(s[n..]);
      CharLenOfPrefix(s, v);
      assert s[..v][n..] == s[n..][..v - n];
      assert s[v..] == s[n..][v - n..];
    }
  }

  lemma {:induction false} NoCharInPrefix(s: Bytes, m: nat)
    requires CharLen(s) == 0 && m <= |s|
    ensures CharLen(s[..m]) == 0
  {
    if CharLen(s[..m]) > 0 {
      CharLenOfAppend(s[..m], s[m..]);
      assert s == s[..m] + s[m..];
    }
  }

  /** valid_up_to is the length of the longest well-formed prefix. */
  lemma {:induction false} ValidUpToIsLongest(s: Bytes, k: nat)
    requires ValidUpTo(s) < k <= |s|
    ensures !WellFormed(s[..k])
  {
    var v := ValidUpTo(s);
    var good, rest := s[..v], s[v..];
    ValidPrefix(s);
    NoCharInPrefix(rest, k - v);
    WellFormedAppend(good, rest[..k - v]);
    assert s[..k] == good + rest[..k - v];
  }

  lemma {:induction false} WellFormedIsAllValid(s: Bytes)
    ensures WellFormed(s) <==> ValidUpTo(s) == |s|
    decreases |s|
  {
    if CharLen(s) > 0 {
      WellFormedIsAllValid(s[CharLen(s)..]);
    }
  }

  lemma {:induction false} Regroup(s: Bytes, v: nat, c: Bytes)
    requires v <= |s|
    ensures s + c == s[..v] + (s[v..] + c)
  {
  }

  lemma {:induction false} SplitAppend(good: Bytes, data: Bytes, n: nat)
    requires n <= |data|
    ensures (good + data)[..|good| + n] == good + data[..n]
    ensures (good + data)[|good| + n..] == data[n..]
  {
  }

  lemma {:induction false} ValidOfAppend(good: Bytes, data: Bytes)
    requires WellFormed(good)
    ensures var n := ValidUpTo(data);
      && ValidUpTo(good + data) == |good| + n
      && (good + data)[..|good| + n] == good + data[..n]
      && (good + data)[|good| + n..] == data[n..]
  {
    WellFormedAppend(good, data);
    SplitAppend(good, data, ValidUpTo(data));
  }

  /** Reading on: what becomes valid when c arrives. */
  lemma {:induction false} ValidGrows(s: Bytes, c: Bytes)
    ensures var v := ValidUpTo(s);
      var data := s[v..] + c;
      && ValidUpTo(s + c) == v + ValidUpTo(data)
      && (s + c)[..ValidUpTo(s + c)] == s[..v] + data[..ValidUpTo(data)]
      && (s + c)[ValidUpTo(s + c)..] == data[ValidUpTo(data)..]
  {
    var v := ValidUpTo(s);
    Regroup(s, v, c);
    ValidPrefix(s);
    ValidOfAppend(s[..v], s[v..] + c);
  }

  /** The byte test finds exactly the ends of well-formed prefixes. */
  lemma {:induction false} BoundaryIsCharEnd(s: Bytes, i: nat)
    requires WellFormed(s) && i <= |s|
    ensures Boundary(s, i) <==> WellFormed(s[..i])
    ensures Boundary(s, i) ==> WellFormed(s[i..])
    decreases |s|
  {
    if i == 0 {
      assert s[..0] == [] && s[0..] == s;
    } else {
      var n := CharLen(s);
      CharLenOfPrefix(s, i);
      if i >= n {
        var rest := s[n..];
        BoundaryIsCharEnd(rest, i - n);
        assert s[..i][n..] == rest[..i - n];
        assert s[i..] == rest[i - n..];
        assert i == n && i < |s| ==> CharLen(rest) > 0;
      }
    }
  }

  lemma {:induction false} FloorIs(s: Bytes, m: nat, i: nat)
    requires i <= m && i <= |s| && Boundary(s, i)
    requires forall j :: i < j <= m && j <= |s| ==> !Boundary(s, j)
    ensures Floor(s, m) == i
  {
    var f := Floor(s, m);
    assert Boundary(s, f);
  }

  lemma {:induction false} BoundaryOfAppend(a: Bytes, s: Bytes, i: nat)
    requires WellFormed(s) && i <= |a + s|
    ensures Boundary(a + s, i) <==> if i <= |a| then i == |a| || Boundary(a, i) else Boundary(s, i - |a|)
  {
    if i == |a| && s != [] {
      assert CharLen(s) > 0 && (a + s)[i] == s[0];
    }
  }

  lemma {:induction false} FloorOfAppend(a: Bytes, s: Bytes, m: nat)
    requires WellFormed(s)
    ensures Floor(a + s, m) == if |a| <= m then |a| + Floor(s, m - |a|) else Floor(a, m)
  {
    var i := if |a| <= m then |a| + Floor(s, m - |a|) else Floor(a, m);
    BoundaryOfAppend(a, s, i);
    forall j | i < j <= m && j <= |a + s|
      ensures !Boundary(a + s, j)
    {
      BoundaryOfAppend(a, s, j);
    }
    FloorIs(a + s, m, i);
  }
}
