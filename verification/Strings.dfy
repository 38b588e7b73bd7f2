/** Go string helpers the event code relies on: byte-order comparison, the effect of
    `sort.Strings` on a slice, `strings.Join`, `strings.TrimSpace` and `len` in bytes.
    Strings are sequences of Unicode code points; what Go does to the bytes of their UTF-8
    encoding is proved to be what is done to the code points here. */
module Strings {
  import S = Sorting

  // ----- order -----

  predicate Leq(a: string, b: string) {
    if a == "" then true
    else if b == "" then false
    else a[0] < b[0] || (a[0] == b[0] && Leq(a[1..], b[1..]))
  }

  lemma {:induction false} LeqReflexive(a: string)
    ensures Leq(a, a)
  {
    if a == "" {
    } else {
      LeqReflexive(a[1..]);
    }
  }

  lemma {:induction false} LeqTotal(a: string, b: string)
    ensures Leq(a, b) || Leq(b, a)
  {
    if a != "" && b != "" && a[0] == b[0] { LeqTotal(a[1..], b[1..]); }
  }

  lemma {:induction false} LeqAntisymmetric(a: string, b: string)
    requires Leq(a, b) && Leq(b, a)
    ensures a == b
  {
    if a != "" && b != "" {
      LeqAntisymmetric(a[1..], b[1..]);
      assert a == [a[0]] + a[1..] && b == [b[0]] + b[1..];
    }
  }

  lemma {:induction false} LeqTransitive(a: string, b: string, c: string)
    requires Leq(a, b) && Leq(b, c)
    ensures Leq(a, c)
  {
    if a != "" && b != "" && c != "" && a[0] == b[0] == c[0] {
      LeqTransitive(a[1..], b[1..], c[1..]);
    }
  }

  // ----- sorting -----

  lemma LeqIsTotalOrder()
    ensures S.TotalOrder(Leq)
  {
    forall x ensures Leq(x, x) { LeqReflexive(x); }
    forall x, y ensures Leq(x, y) || Leq(y, x) { LeqTotal(x, y); }
    forall x, y | Leq(x, y) && Leq(y, x) ensures x == y { LeqAntisymmetric(x, y); }
    forall x, y, z | Leq(x, y) && Leq(y, z) ensures Leq(x, z) { LeqTransitive(x, y, z); }
  }

  function Sorted(s: seq<string>): seq<string> {
    S.Sorted(Leq, s)
  }

  lemma SortedPermutes(s: seq<string>)
    ensures multiset(Sorted(s)) == multiset(s)
  {
    LeqIsTotalOrder();
    S.SortedIsSortedPermutation(Leq, s);
  }

  lemma SortedAscends(s: seq<string>)
    ensures forall i, j :: 0 <= i < j < |Sorted(s)| ==> Leq(Sorted(s)[i], Sorted(s)[j])
  {
    LeqIsTotalOrder();
    S.SortedIsSortedPermutation(Leq, s);
  }

  /** Sorting forgets the order of its input and nothing else. */
  lemma SortedEqualIffPermuted(s: seq<string>, t: seq<string>)
    ensures Sorted(s) == Sorted(t) <==> multiset(s) == multiset(t)
  {
    LeqIsTotalOrder();
    S.SortedIsSortedPermutation(Leq, s);
    S.SortedIsSortedPermutation(Leq, t);
    if multiset(s) == multiset(t) { S.SortedUnique(Leq, Sorted(s), Sorted(t)); }
  }

  /** `sort.Strings`. */
  method SortStrings(a: array<string>)
    modifies a
    ensures a[..] == Sorted(old(a[..]))
  {
    S.Sort(Leq, a);
  }

  // ----- sets of strings in sorted order -----

  ghost predicate Distinct<T>(s: seq<T>) {
    forall i, j :: 0 <= i < j < |s| ==> s[i] != s[j]
  }

  ghost predicate Enumerates<T>(s: seq<T>, xs: set<T>) {
    Distinct(s) && (forall x <- s :: x in xs) && forall x <- xs :: x in s
  }

  lemma {:induction false} DistinctCounts<T>(s: seq<T>, x: T)
    requires Distinct(s)
    ensures multiset(s)[x] == if x in s then 1 else 0
  {
    if s == [] {
    } else {
      assert s == [s[0]] + s[1..];
      assert Distinct(s[1..]);
      DistinctCounts(s[1..], x);
      assert s[0] !in s[1..];
    }
  }

  lemma EnumerationsArePermutations<T>(s: seq<T>, t: seq<T>, xs: set<T>)
    requires Enumerates(s, xs) && Enumerates(t, xs)
    ensures multiset(s) == multiset(t)
  {
    forall x ensures multiset(s)[x] == multiset(t)[x] {
      DistinctCounts(s, x);
      DistinctCounts(t, x);
    }
  }

  lemma {:induction false} EnumerationLength<T>(s: seq<T>, xs: set<T>)
    requires Enumerates(s, xs)
    ensures |s| == |xs|
  {
    if s == [] {
      assert xs == {};
    } else {
      assert Enumerates(s[1..], xs - {s[0]});
      EnumerationLength(s[1..], xs - {s[0]});
    }
  }

  lemma {:induction false} EnumerationExists<T>(xs: set<T>)
    ensures exists s: seq<T> :: Enumerates(s, xs)
  {
    if xs == {} {
      var e: seq<T> := [];
      assert Enumerates(e, xs);
    } else {
      var x :| x in xs;
      EnumerationExists(xs - {x});
      var s: seq<T> :| Enumerates(s, xs - {x});
      assert Enumerates([x] + s, xs);
    }
  }

  ghost function AnyOrder<T>(xs: set<T>): (s: seq<T>)
    ensures Enumerates(s, xs)
  {
    EnumerationExists(xs);
    var s: seq<T> :| Enumerates(s, xs);
    s
  }

  lemma SortedOfEnumeration(g: seq<string>, xs: set<string>)
    requires Enumerates(g, xs)
    ensures Enumerates(Sorted(g), xs)
  {
    SortedPermutes(g);
    var s := Sorted(g);
    forall x ensures x in s <==> x in xs {
      assert x in s <==> x in multiset(s);
      assert x in g <==> x in multiset(g);
    }
    forall i, j | 0 <= i < j < |s| ensures s[i] != s[j] {
      DistinctCounts(g, s[i]);
      assert s == s[..j] + s[j..];
      assert s[i] in multiset(s[..j]) && s[j] in multiset(s[j..]);
      assert multiset(s)[s[i]] == multiset(s[..j])[s[i]] + multiset(s[j..])[s[i]];
    }
  }

  /** The elements of `xs`, each once, in ascending order. */
  ghost function Ascending(xs: set<string>): (s: seq<string>)
    ensures Enumerates(s, xs)
    ensures forall i, j :: 0 <= i < j < |s| ==> Leq(s[i], s[j])
  {
    var g := AnyOrder(xs);
    SortedOfEnumeration(g, xs);
    SortedAscends(g);
    Sorted(g)
  }

  /** Whatever order the keys are gathered in, sorting them gives the same sequence. */
  lemma GatheringOrderIsIrrelevant(g: seq<string>, xs: set<string>)
    requires Enumerates(g, xs)
    ensures Sorted(g) == Ascending(xs)
  {
    EnumerationsArePermutations(g, AnyOrder(xs), xs);
    SortedEqualIffPermuted(g, AnyOrder(xs));
  }

  // ----- joining, blank strings, byte length -----

  function Join(parts: seq<string>, sep: string): string {
    if parts == [] then ""
    else if |parts| == 1 then parts[0]
    else parts[0] + sep + Join(parts[1..], sep)
  }

  /** Unicode White_Space, the set `strings.TrimSpace` removes. */
  predicate IsSpace(c: char) {
    '\t' <= c <= '\r' || c == ' ' || c as int == 0x85 || c as int == 0xA0 || c as int == 0x1680
    || 0x2000 <= c as int <= 0x200A || c as int == 0x2028 || c as int == 0x2029
    || c as int == 0x202F || c as int == 0x205F || c as int == 0x3000
  }

  /** These are the 25 code points, one by one. */
  lemma SpacesAre(c: char)
    ensures var spaces := {
        0x09, 0x0A, 0x0B, 0x0C, 0x0D, 0x20, 0x85, 0xA0, 0x1680, 0x2000, 0x2001, 0x2002, 0x2003, 0x2004, 0x2005, 0x2006,
        0x2007, 0x2008, 0x2009, 0x200A, 0x2028, 0x2029, 0x202F, 0x205F, 0x3000};
      IsSpace(c) <==> c as int in spaces
  {
  }

  function TrimLeft(s: string): string {
    if s != "" && IsSpace(s[0]) then TrimLeft(s[1..]) else s
  }

  function TrimRight(s: string): string {
    if s != "" && IsSpace(s[|s| - 1]) then TrimRight(s[..|s| - 1]) else s
  }

  function TrimSpace(s: string): string {
    TrimRight(TrimLeft(s))
  }

  ghost predicate Blank(s: string) {
    forall i :: 0 <= i < |s| ==> IsSpace(s[i])
  }

  lemma {:induction false} TrimLeftEmpty(s: string)
    ensures TrimLeft(s) == "" <==> Blank(s)
    ensures TrimLeft(s) != "" ==> !IsSpace(TrimLeft(s)[0])
  {
    if s != "" && IsSpace(s[0]) {
      TrimLeftEmpty(s[1..]);
      if Blank(s[1..]) {
        forall i | 0 <= i < |s| ensures IsSpace(s[i]) { assert i > 0 ==> s[i] == s[1..][i - 1]; }
      }
    }
  }

  lemma {:induction false} TrimRightKeepsFirst(s: string)
    requires s != "" && !IsSpace(s[0])
    ensures TrimRight(s) != ""
  {
    if IsSpace(s[|s| - 1]) { TrimRightKeepsFirst(s[..|s| - 1]); }
  }

  /** `strings.TrimSpace(s) == ""` holds exactly of the strings made of white space only. */
  lemma TrimSpaceEmptyIffBlank(s: string)
    ensures TrimSpace(s) == "" <==> Blank(s)
  {
    TrimLeftEmpty(s);
    if TrimLeft(s) != "" { TrimRightKeepsFirst(TrimLeft(s)); }
  }

  /** `len(s)` of a Go string: the number of bytes of its UTF-8 encoding. */
  function Utf8Length(s: string): nat {
    if s == "" then 0
    else
      var c := s[0] as int;
      (if c < 0x80 then 1 else if c < 0x800 then 2 else if c < 0x10000 then 3 else 4) + Utf8Length(s[1..])
  }

  // ----- the bytes behind the code points (section 3 of RFC 3629) -----

  /** A lead byte and `k` continuation bytes of six bits each. */
  function Bytes(lead: nat, n: nat, k: nat): (bs: seq<nat>)
    ensures |bs| == k + 1
  {
    if k == 0 then [lead + n] else Bytes(lead, n / 0x40, k - 1) + [0x80 + n % 0x40]
  }

  function EncodeChar(ch: char): seq<nat> {
    var c := ch as int;
    if c < 0x80 then Bytes(0, c, 0)
    else if c < 0x800 then Bytes(0xC0, c, 1)
    else if c < 0x10000 then Bytes(0xE0, c, 2)
    else Bytes(0xF0, c, 3)
  }

  function Encode(s: string): seq<nat> {
    if s == "" then [] else EncodeChar(s[0]) + Encode(s[1..])
  }

  lemma {:induction false} Utf8LengthIsBytes(s: string)
    ensures Utf8Length(s) == |Encode(s)|
  {
    if s == "" {
    } else {
      Utf8LengthIsBytes(s[1..]);
    }
  }

  predicate BytesLeq(a: seq<nat>, b: seq<nat>) {
    if a == [] then true
    else if b == [] then false
    else a[0] < b[0] || (a[0] == b[0] && BytesLeq(a[1..], b[1..]))
  }

  lemma {:induction false} FirstDifference(a: seq<nat>, b: seq<nat>, k: nat)
    requires k < |a| && k < |b| && a[..k] == b[..k] && a[k] < b[k]
    ensures BytesLeq(a, b) && !BytesLeq(b, a)
  {
    if k == 0 {
    } else {
      assert a[0] == a[..k][0] == b[..k][0] == b[0];
      assert a[1..][..k - 1] == a[..k][1..] && b[1..][..k - 1] == b[..k][1..];
      FirstDifference(a[1..], b[1..], k - 1);
    }
  }

  lemma {:induction false} SameFront(p: seq<nat>, x: seq<nat>, y: seq<nat>)
    ensures BytesLeq(p + x, p + y) <==> BytesLeq(x, y)
  {
    if p == [] {
      assert p + x == x && p + y == y;
    } else {
      SameFront(p[1..], x, y);
      assert (p + x)[1..] == p[1..] + x && (p + y)[1..] == p[1..] + y;
    }
  }

  /** `x` goes before `y` at some place up to which they agree. */
  ghost predicate Before(x: seq<nat>, y: seq<nat>) {
    exists k :: 0 <= k < |x| && k < |y| && x[..k] == y[..k] && x[k] < y[k]
  }

  lemma BeforeExtended(x: seq<nat>, y: seq<nat>, p: seq<nat>, q: seq<nat>)
    requires Before(x, y)
    ensures Before(x + p, y + q)
  {
    var k :| 0 <= k < |x| && k < |y| && x[..k] == y[..k] && x[k] < y[k];
    assert (x + p)[..k] == x[..k] && (y + q)[..k] == y[..k];
  }

  lemma BeforeAtLast(x: seq<nat>, d: nat, e: nat)
    requires d < e
    ensures Before(x + [d], x + [e])
  {
    assert (x + [d])[..|x|] == x && (x + [e])[..|x|] == x;
  }

  lemma {:induction false} BytesBefore(lead: nat, m: nat, n: nat, k: nat)
    requires m < n
    ensures Before(Bytes(lead, m, k), Bytes(lead, n, k))
  {
    if k == 0 {
      BeforeAtLast([], lead + m, lead + n);
      assert [] + [lead + m] == [lead + m] && [] + [lead + n] == [lead + n];
    } else if m / 0x40 < n / 0x40 {
      BytesBefore(lead, m / 0x40, n / 0x40, k - 1);
      BeforeExtended(Bytes(lead, m / 0x40, k - 1), Bytes(lead, n / 0x40, k - 1), [0x80 + m % 0x40], [0x80 + n % 0x40]);
    } else {
      assert m / 0x40 == n / 0x40 && m % 0x40 < n % 0x40;
      BeforeAtLast(Bytes(lead, m / 0x40, k - 1), 0x80 + m % 0x40, 0x80 + n % 0x40);
    }
  }

  lemma LeadByte(lead: nat, n: nat)
    ensures Bytes(lead, n, 0)[0] == lead + n
    ensures Bytes(lead, n, 1)[0] == lead + n / 0x40
    ensures Bytes(lead, n, 2)[0] == lead + n / 0x40 / 0x40
    ensures Bytes(lead, n, 3)[0] == lead + n / 0x40 / 0x40 / 0x40
  {
    assert Bytes(lead, n / 0x40, 0) == [lead + n / 0x40];
    assert Bytes(lead, n / 0x40 / 0x40, 0) == [lead + n / 0x40 / 0x40];
    assert Bytes(lead, n / 0x40 / 0x40 / 0x40, 0) == [lead + n / 0x40 / 0x40 / 0x40];
    assert Bytes(lead, n / 0x40, 1)[0] == lead + n / 0x40 / 0x40;
    assert Bytes(lead, n / 0x40 / 0x40, 1)[0] == lead + n / 0x40 / 0x40 / 0x40;
    assert Bytes(lead, n / 0x40, 2)[0] == lead + n / 0x40 / 0x40 / 0x40;
  }

  /** The number of bytes shows in the first one. */
  lemma LeadOfChar(ch: char)
    ensures var a := EncodeChar(ch);
      match |a| case 1 => a[0] < 0x80 case 2 => 0xC0 <= a[0] < 0xE0 case 3 => 0xE0 <= a[0] < 0xF0 case _ => 0xF0 <= a[0]
  {
    var c := ch as int;
    LeadByte(if c < 0x80 then 0 else if c < 0x800 then 0xC0 else if c < 0x10000 then 0xE0 else 0xF0, c);
  }

  lemma LongerIsGreater(ch: char, dh: char)
    requires ch < dh
    ensures var a, b := EncodeChar(ch), EncodeChar(dh); |a| <= |b| && (|a| < |b| ==> a[0] < b[0])
  {
    LeadOfChar(ch);
    LeadOfChar(dh);
  }

  lemma SameLengthBefore(ch: char, dh: char)
    requires ch < dh && |EncodeChar(ch)| == |EncodeChar(dh)|
    ensures Before(EncodeChar(ch), EncodeChar(dh))
  {
    var m, n := ch as int, dh as int;
    BytesBefore(if m < 0x80 then 0 else if m < 0x800 then 0xC0 else if m < 0x10000 then 0xE0 else 0xF0, m, n, |EncodeChar(ch)| - 1);
  }

  lemma CharsBefore(ch: char, dh: char)
    requires ch < dh
    ensures Before(EncodeChar(ch), EncodeChar(dh))
  {
    var a, b := EncodeChar(ch), EncodeChar(dh);
    LongerIsGreater(ch, dh);
    if |a| == |b| {
      SameLengthBefore(ch, dh);
    } else {
      assert a[..0] == b[..0];
    }
  }

  lemma CharsOrder(ch: char, dh: char, x: seq<nat>, y: seq<nat>)
    requires ch < dh
    ensures var a, b := EncodeChar(ch) + x, EncodeChar(dh) + y; BytesLeq(a, b) && !BytesLeq(b, a)
  {
    CharsBefore(ch, dh);
    var k :| 0 <= k < |EncodeChar(ch)| && k < |EncodeChar(dh)|
      && EncodeChar(ch)[..k] == EncodeChar(dh)[..k] && EncodeChar(ch)[k] < EncodeChar(dh)[k];
    var a, b := EncodeChar(ch) + x, EncodeChar(dh) + y;
    assert a[..k] == EncodeChar(ch)[..k] && b[..k] == EncodeChar(dh)[..k];
    FirstDifference(a, b, k);
  }

  /** Comparing code points is comparing bytes. */
  lemma {:induction false} LeqIsByteOrder(a: string, b: string)
    ensures Leq(a, b) <==> BytesLeq(Encode(a), Encode(b))
  {
    if a == "" || b == "" {
    } else if a[0] == b[0] {
      LeqIsByteOrder(a[1..], b[1..]);
      SameFront(EncodeChar(a[0]), Encode(a[1..]), Encode(b[1..]));
    } else if a[0] < b[0] {
      CharsOrder(a[0], b[0], Encode(a[1..]), Encode(b[1..]));
    } else {
      CharsOrder(b[0], a[0], Encode(b[1..]), Encode(a[1..]));
    }
  }
}
