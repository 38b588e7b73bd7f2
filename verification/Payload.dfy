/** The text that is hashed into an event's dedup key: the payload fields, each closed by a
    NUL byte, with the tags in sorted order. */
module Payloads {
  import opened Arithmetic
  import opened Strings

  const NUL: char := '\0'

  /** The payload fields of an event. */
  datatype Payload = Payload(channel: string, campaign: string, tags: seq<string>, priority: string, metadata: string)

  /** The same payload up to the order of its tags. */
  ghost predicate Same(p: Payload, q: Payload) {
    p.channel == q.channel && p.campaign == q.campaign && multiset(p.tags) == multiset(q.tags)
    && p.priority == q.priority && p.metadata == q.metadata
  }

  function Closed(tags: seq<string>): string {
    if tags == [] then "" else tags[0] + [NUL] + Closed(tags[1..])
  }

  function PayloadText(p: Payload): string {
    p.channel + [NUL] + p.campaign + [NUL] + Closed(Sorted(p.tags)) + p.priority + [NUL] + p.metadata
  }

  lemma {:induction false} ClosedGrow(s: seq<string>, i: nat)
    requires i < |s|
    ensures Closed(s[..i + 1]) == Closed(s[..i]) + s[i] + [NUL]
  {
    if i == 0 {
    } else {
      ClosedGrow(s[1..], i - 1);
      assert s[..i + 1][1..] == s[1..][..i] && s[..i][1..] == s[1..][..i - 1];
    }
  }

  /** `ComputePayloadHash`: sorts a copy of the tags, so the caller's slice is left alone. */
  method ComputePayloadHash(hash: string -> UInt64, channel: string, campaign: string, tags: array<string>,
                            priority: string, metadata: string) returns (h: UInt64)
    ensures h == hash(PayloadText(Payload(channel, campaign, tags[..], priority, metadata)))
    ensures h == hash(channel + [NUL] + campaign + [NUL] + Closed(Sorted(tags[..])) + priority + [NUL] + metadata)
  {
    var b := channel + [NUL];
    b := b + campaign + [NUL];
    var sorted := new string[tags.Length];
    for i := 0 to tags.Length
      invariant sorted[..i] == tags[..i]
    {
      sorted[i] := tags[i];
    }
    assert sorted[..] == sorted[..tags.Length] == tags[..tags.Length] == tags[..];
    SortStrings(sorted);
    ghost var start, s := b, sorted[..];
    for i := 0 to sorted.Length
      invariant sorted[..] == s && b == start + Closed(s[..i])
    {
      ClosedGrow(s, i);
      b := b + sorted[i] + [NUL];
    }
    assert s[..sorted.Length] == s;
    b := b + priority + [NUL];
    b := b + metadata;
    h := hash(b);
  }

  // ----- splitting at NUL bytes -----

  ghost predicate NulFree(s: string) {
    forall i :: 0 <= i < |s| ==> s[i] != NUL
  }

  ghost function Nuls(s: string): nat {
    if s == "" then 0 else (if s[0] == NUL then 1 else 0) + Nuls(s[1..])
  }

  lemma {:induction false} NulsConcat(s: string, t: string)
    ensures Nuls(s + t) == Nuls(s) + Nuls(t)
  {
    if s == "" {
      assert s + t == t;
    } else {
      NulsConcat(s[1..], t);
      assert (s + t)[1..] == s[1..] + t;
    }
  }

  lemma {:induction false} NulFreeIffNoNuls(s: string)
    ensures NulFree(s) <==> Nuls(s) == 0
  {
    if s == "" {
    } else {
      NulFreeIffNoNuls(s[1..]);
      assert s == [s[0]] + s[1..];
    }
  }

  ghost function TotalNuls(ps: seq<string>): nat {
    if ps == [] then 0 else Nuls(ps[0]) + TotalNuls(ps[1..])
  }

  lemma {:induction false} TotalNulsZero(ps: seq<string>)
    ensures TotalNuls(ps) == 0 <==> forall p <- ps :: NulFree(p)
  {
    if ps == [] {
    } else {
      NulFreeIffNoNuls(ps[0]);
      TotalNulsZero(ps[1..]);
      assert ps == [ps[0]] + ps[1..];
    }
  }

  lemma {:induction false} JoinNuls(ps: seq<string>)
    requires ps != []
    ensures Nuls(Join(ps, [NUL])) == TotalNuls(ps) + |ps| - 1
  {
    if |ps| == 1 {
      assert TotalNuls(ps) == Nuls(ps[0]) + TotalNuls([]);
    } else {
      JoinNuls(ps[1..]);
      NulsConcat(ps[0], [NUL]);
      NulsConcat(ps[0] + [NUL], Join(ps[1..], [NUL]));
    }
  }

  /** The pieces of `s` between its NUL bytes. */
  ghost function Split(s: string): (ps: seq<string>)
    ensures ps != []
  {
    if s == "" then [""]
    else
      var rest := Split(s[1..]);
      if s[0] == NUL then [""] + rest else [[s[0]] + rest[0]] + rest[1..]
  }

  lemma JoinLongerFirst(x: string, ps: seq<string>)
    requires ps != []
    ensures Join([x + ps[0]] + ps[1..], [NUL]) == x + Join(ps, [NUL])
  {
    var qs := [x + ps[0]] + ps[1..];
    assert qs[1..] == ps[1..];
    if |ps| > 1 {
      assert x + ps[0] + [NUL] + Join(ps[1..], [NUL]) == x + (ps[0] + [NUL] + Join(ps[1..], [NUL]));
    }
  }

  lemma JoinEmptyFirst(ps: seq<string>)
    requires ps != []
    ensures Join([""] + ps, [NUL]) == [NUL] + Join(ps, [NUL])
  {
    assert ([""] + ps)[1..] == ps;
  }

  lemma {:induction false} JoinOfSplit(s: string)
    ensures Join(Split(s), [NUL]) == s
  {
    if s == "" {
    } else {
      var rest := Split(s[1..]);
      JoinOfSplit(s[1..]);
      JoinLongerFirst([s[0]], rest);
      JoinEmptyFirst(rest);
      assert s == [s[0]] + s[1..];
    }
  }

  lemma {:induction false} SplitPiecesNulFree(s: string)
    ensures forall i :: 0 <= i < |Split(s)| ==> NulFree(Split(s)[i])
  {
    if s == "" {
    } else {
      SplitPiecesNulFree(s[1..]);
      assert s[0] != NUL ==> NulFree([s[0]] + Split(s[1..])[0]);
    }
  }

  lemma ShorterPieceDiffers(p: string, q: string, x: string, y: string)
    requires NulFree(q) && |p| < |q|
    ensures p + [NUL] + x != q + [NUL] + y
  {
    assert (p + [NUL] + x)[|p|] == NUL && (q + [NUL] + y)[|p|] == q[|p|];
  }

  lemma FirstPiece(p: string, q: string, x: string, y: string)
    requires NulFree(p) && NulFree(q) && p + [NUL] + x == q + [NUL] + y
    ensures p == q && x == y
  {
    var s, t := p + [NUL] + x, q + [NUL] + y;
    if |p| < |q| { ShorterPieceDiffers(p, q, x, y); }
    if |q| < |p| { ShorterPieceDiffers(q, p, y, x); }
    assert p == s[..|p|] && q == t[..|q|];
    assert x == s[|p| + 1..] && y == t[|q| + 1..];
  }

  /** Pieces without NUL bytes can be read back from their joined text. */
  lemma {:induction false} JoinInjective(ps: seq<string>, qs: seq<string>)
    requires ps != [] && qs != [] && Join(ps, [NUL]) == Join(qs, [NUL])
    requires (forall p <- ps :: NulFree(p)) && (forall q <- qs :: NulFree(q))
    ensures ps == qs
  {
    JoinNuls(ps);
    JoinNuls(qs);
    TotalNulsZero(ps);
    TotalNulsZero(qs);
    if |ps| == 1 {
    } else {
      var x, y := Join(ps[1..], [NUL]), Join(qs[1..], [NUL]);
      FirstPiece(ps[0], qs[0], x, y);
      JoinInjective(ps[1..], qs[1..]);
    }
    assert ps == [ps[0]] + ps[1..] && qs == [qs[0]] + qs[1..];
  }

  lemma {:induction false} JoinRegroup(ps: seq<string>, qs: seq<string>)
    requires ps != []
    ensures Join([Join(ps, [NUL])] + qs, [NUL]) == Join(ps + qs, [NUL])
  {
    if |ps| == 1 {
      assert [ps[0]] == ps;
    } else if qs == [] {
      assert ps + qs == ps;
    } else {
      var rest := Join(ps[1..], [NUL]);
      JoinRegroup(ps[1..], qs);
      assert (ps + qs)[1..] == ps[1..] + qs;
      assert ([rest] + qs)[1..] == qs && ([Join(ps, [NUL])] + qs)[1..] == qs;
      var tail := Join(qs, [NUL]);
      assert (ps[0] + [NUL] + rest) + [NUL] + tail == ps[0] + [NUL] + (rest + [NUL] + tail);
    }
  }

  // ----- what the payload text determines -----

  /** The payload text as a list of pieces. */
  ghost function Pieces(p: Payload): seq<string> {
    [p.channel, p.campaign] + Sorted(p.tags) + [p.priority, p.metadata]
  }

  lemma {:induction false} ClosedJoin(tags: seq<string>, priority: string, metadata: string)
    ensures Closed(tags) + (priority + [NUL] + metadata) == Join(tags + [priority, metadata], [NUL])
  {
    if tags == [] {
      assert tags + [priority, metadata] == [priority, metadata];
      assert [priority, metadata][1..] == [metadata];
    } else {
      var tail := priority + [NUL] + metadata;
      ClosedJoin(tags[1..], priority, metadata);
      assert (tags + [priority, metadata])[1..] == tags[1..] + [priority, metadata];
      assert (tags[0] + [NUL] + Closed(tags[1..])) + tail == tags[0] + [NUL] + (Closed(tags[1..]) + tail);
    }
  }

  lemma PlainAssoc(a: string, b: string, c: string, d: string, e: string)
    ensures a + [NUL] + b + [NUL] + c + d + [NUL] + e == a + [NUL] + (b + [NUL] + (c + (d + [NUL] + e)))
  {
  }

  lemma TextIsJoin(p: Payload)
    ensures PayloadText(p) == Join(Pieces(p), [NUL])
  {
    var tags := Sorted(p.tags);
    var tail := tags + [p.priority, p.metadata];
    var t := Join(tail, [NUL]);
    ClosedJoin(tags, p.priority, p.metadata);
    assert Pieces(p) == [p.channel] + ([p.campaign] + tail);
    assert ([p.campaign] + tail)[1..] == tail && Pieces(p)[1..] == [p.campaign] + tail;
    PlainAssoc(p.channel, p.campaign, Closed(tags), p.priority, p.metadata);
  }

  ghost predicate NulFreeFields(p: Payload) {
    NulFree(p.channel) && NulFree(p.campaign) && (forall t <- p.tags :: NulFree(t))
    && NulFree(p.priority) && NulFree(p.metadata)
  }

  lemma PiecesNulFree(p: Payload)
    ensures NulFreeFields(p) <==> forall x <- Pieces(p) :: NulFree(x)
  {
    var ps := Pieces(p);
    SortedPermutes(p.tags);
    forall t ensures t in p.tags <==> t in Sorted(p.tags) {
      assert t in p.tags <==> t in multiset(p.tags);
      assert t in Sorted(p.tags) <==> t in multiset(Sorted(p.tags));
    }
    assert ps[0] == p.channel && ps[1] == p.campaign && ps[|ps| - 2] == p.priority && ps[|ps| - 1] == p.metadata;
  }

  lemma PiecesDetermine(p: Payload, q: Payload)
    ensures Pieces(p) == Pieces(q) <==> Same(p, q)
  {
    SortedEqualIffPermuted(p.tags, q.tags);
    var ps, qs := Pieces(p), Pieces(q);
    assert ps[2..|ps| - 2] == Sorted(p.tags) && qs[2..|qs| - 2] == Sorted(q.tags);
    assert ps[0] == p.channel && ps[1] == p.campaign && ps[|ps| - 2] == p.priority && ps[|ps| - 1] == p.metadata;
    assert qs[0] == q.channel && qs[1] == q.campaign && qs[|qs| - 2] == q.priority && qs[|qs| - 1] == q.metadata;
  }

  /** On NUL-free fields the hashed text separates payloads exactly, whatever order the tags
      were given in. */
  lemma TextSeparatesNulFree(p: Payload, q: Payload)
    requires NulFreeFields(p) && NulFreeFields(q)
    ensures PayloadText(p) == PayloadText(q) <==> Same(p, q)
  {
    TextIsJoin(p);
    TextIsJoin(q);
    PiecesDetermine(p, q);
    if PayloadText(p) == PayloadText(q) {
      PiecesNulFree(p);
      PiecesNulFree(q);
      JoinInjective(Pieces(p), Pieces(q));
    }
  }

  /** Permuting the tags never changes the hashed text, NUL bytes or not. */
  lemma TagOrderIrrelevant(p: Payload, q: Payload)
    requires Same(p, q)
    ensures PayloadText(p) == PayloadText(q)
  {
    SortedEqualIffPermuted(p.tags, q.tags);
  }

  // ----- when a NUL byte inside a field defeats the separators -----

  /** Another payload, with the same metadata, is hashed as the very same text. */
  ghost predicate Ambiguous(p: Payload) {
    exists q: Payload :: q.metadata == p.metadata && PayloadText(q) == PayloadText(p) && !Same(p, q)
  }

  /** A channel holding a NUL byte passes for a channel, a campaign and a tag. */
  lemma SeparatorsAreNotEnough()
    ensures Ambiguous(Payload("web", "spring", ["sale"], "", ""))
  {
    var p, q := Payload("web", "spring", ["sale"], "", ""), Payload("web" + [NUL] + "spring", "sale", [], "", "");
    TextIsJoin(p);
    TextIsJoin(q);
    assert Sorted(["sale"]) == ["sale"];
    assert Pieces(p) == ["web", "spring"] + ["sale", "", ""];
    assert Pieces(q) == [Join(["web", "spring"], [NUL])] + ["sale", "", ""];
    JoinRegroup(["web", "spring"], ["sale", "", ""]);
  }

  lemma OnlyReading(p: Payload, q: Payload)
    requires NulFreeFields(p) && p.tags == [] && PayloadText(q) == PayloadText(p)
    ensures Same(p, q)
  {
    TextIsJoin(p);
    TextIsJoin(q);
    JoinNuls(Pieces(p));
    JoinNuls(Pieces(q));
    PiecesNulFree(p);
    TotalNulsZero(Pieces(p));
    assert |Pieces(p)| == 4;
    SortedPermutes(q.tags);
    assert |multiset(q.tags)| == |q.tags| && |multiset(Sorted(q.tags))| == |Sorted(q.tags)|;
    TotalNulsZero(Pieces(q));
    PiecesNulFree(q);
    TextSeparatesNulFree(p, q);
  }

  lemma RegroupFront(ps: seq<string>, a: Payload)
    requires |ps| >= 5
    requires var n := |ps|; a == Payload(Join(ps[..n - 3], [NUL]), ps[n - 3], [], ps[n - 2], ps[n - 1])
    ensures PayloadText(a) == Join(ps, [NUL])
  {
    var n := |ps|;
    TextIsJoin(a);
    assert Pieces(a) == [a.channel] + ps[n - 3..];
    JoinRegroup(ps[..n - 3], ps[n - 3..]);
    assert ps[..n - 3] + ps[n - 3..] == ps;
  }

  lemma RegroupMiddle(ps: seq<string>, b: Payload)
    requires |ps| >= 5
    requires var n := |ps|; b == Payload(ps[0], Join(ps[1..n - 2], [NUL]), [], ps[n - 2], ps[n - 1])
    ensures PayloadText(b) == Join(ps, [NUL])
  {
    var n := |ps|;
    TextIsJoin(b);
    assert Pieces(b) == [ps[0]] + ([b.campaign] + ps[n - 2..]);
    JoinRegroup(ps[1..n - 2], ps[n - 2..]);
    assert ps[1..n - 2] + ps[n - 2..] == ps[1..];
    assert Pieces(b)[1..] == [b.campaign] + ps[n - 2..];
  }

  lemma {:induction false} SplitNulFree(t: string)
    requires NulFree(t)
    ensures Split(t) == [t]
  {
    if t == "" {
    } else {
      SplitNulFree(t[1..]);
      assert t == [t[0]] + t[1..];
    }
  }

  lemma {:induction false} SplitAfterNul(s: string, t: string)
    requires NulFree(t)
    ensures Split(s + [NUL] + t)[|Split(s + [NUL] + t)| - 1] == t
    ensures |Split(s + [NUL] + t)| > 1
  {
    var u := s + [NUL] + t;
    if s == "" {
      assert u[1..] == t;
      SplitNulFree(t);
    } else {
      SplitAfterNul(s[1..], t);
      assert u[1..] == s[1..] + [NUL] + t;
    }
  }

  /** The text after the last NUL byte is the metadata. */
  lemma LastPiece(p: Payload, ps: seq<string>)
    requires NulFree(p.metadata) && ps == Split(PayloadText(p))
    ensures ps[|ps| - 1] == p.metadata
  {
    SplitAfterNul(p.channel + [NUL] + p.campaign + [NUL] + Closed(Sorted(p.tags)) + p.priority, p.metadata);
  }

  lemma OtherReading(p: Payload)
    requires NulFree(p.metadata) && Nuls(PayloadText(p)) >= 4
    ensures Ambiguous(p)
  {
    var s := PayloadText(p);
    var ps := Split(s);
    JoinOfSplit(s);
    SplitPiecesNulFree(s);
    JoinNuls(ps);
    TotalNulsZero(ps);
    var n := |ps|;
    var a := Payload(Join(ps[..n - 3], [NUL]), ps[n - 3], [], ps[n - 2], ps[n - 1]);
    var b := Payload(ps[0], Join(ps[1..n - 2], [NUL]), [], ps[n - 2], ps[n - 1]);
    RegroupFront(ps, a);
    RegroupMiddle(ps, b);
    LastPiece(p, ps);
    JoinNuls(ps[..n - 3]);
    NulFreeIffNoNuls(a.channel);
    assert !NulFree(a.channel) && NulFree(b.channel);
  }

  /** Exactly the payloads that carry a tag, or a NUL byte in a field, can be mistaken for
      another one. Printed metadata never holds a NUL byte. */
  lemma AmbiguousIff(p: Payload)
    requires NulFree(p.metadata)
    ensures Ambiguous(p) <==> p.tags != [] || !NulFree(p.channel) || !NulFree(p.campaign) || !NulFree(p.priority)
  {
    TextIsJoin(p);
    SortedPermutes(p.tags);
    assert |multiset(p.tags)| == |p.tags| && |multiset(Sorted(p.tags))| == |Sorted(p.tags)|;
    JoinNuls(Pieces(p));
    TotalNulsZero(Pieces(p));
    PiecesNulFree(p);
    if p.tags == [] && NulFreeFields(p) {
      forall q | PayloadText(q) == PayloadText(p) ensures Same(p, q) { OnlyReading(p, q); }
    } else {
      assert Nuls(PayloadText(p)) >= 4;
      OtherReading(p);
    }
  }
}
