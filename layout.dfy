/** Concatenation of byte pieces (`Buffer.concat`) and the running offsets at which the
    pieces land. */
module Layout {
  import opened Bytes

  /** `Buffer.concat(parts)`. */
  function Concat(parts: seq<seq<byte>>): seq<byte> {
    if parts == [] then [] else parts[0] + Concat(parts[1..])
  }

  /** The concatenation is as long as all the pieces together. */
  lemma {:induction false} ConcatLength(parts: seq<seq<byte>>)
    ensures |Concat(parts)| == Sum(Lengths(parts))
  {
    if parts != [] {
      ConcatLength(parts[1..]);
    }
  }

  function Lengths(parts: seq<seq<byte>>): (r: seq<nat>)
    ensures |r| == |parts| && forall i :: 0 <= i < |parts| ==> r[i] == |parts[i]|
  {
    if parts == [] then [] else [|parts[0]|] + Lengths(parts[1..])
  }

  function Sum(s: seq<nat>): nat {
    if s == [] then 0 else s[0] + Sum(s[1..])
  }

  /** The sum of a prefix grows by the next element. */
  lemma {:induction false} SumSnoc(s: seq<nat>, i: nat)
    requires i < |s|
    ensures Sum(s[..i + 1]) == Sum(s[..i]) + s[i]
  {
    if i > 0 {
      assert s[..i + 1][1..] == s[1..][..i];
      assert s[..i][1..] == s[1..][..i - 1];
      SumSnoc(s[1..], i - 1);
    }
  }

  /** A sum over a prefix is at most the whole sum. */
  lemma {:induction false} SumPrefix(s: seq<nat>, i: nat)
    requires i <= |s|
    ensures Sum(s[..i]) <= Sum(s)
  {
    if i > 0 {
      assert s[..i][1..] == s[1..][..i - 1];
      SumPrefix(s[1..], i - 1);
    }
  }

  /** The offsets at which pieces of lengths `lens` start when laid out from `start`
      (`dataOffset += bitmap.length`). */
  function Starts(lens: seq<nat>, start: nat): (r: seq<nat>)
    ensures |r| == |lens|
  {
    if lens == [] then [] else [start] + Starts(lens[1..], start + lens[0])
  }

  /** Piece `i` starts after all the earlier pieces. */
  lemma {:induction false} StartsAt(lens: seq<nat>, start: nat, i: nat)
    requires i < |lens|
    ensures Starts(lens, start)[i] == start + Sum(lens[..i])
  {
    if i > 0 {
      assert lens[..i][1..] == lens[1..][..i - 1];
      StartsAt(lens[1..], start + lens[0], i - 1);
    }
  }

  /** Each start is the previous start plus the previous length; the first is `start`. */
  lemma {:induction false} StartsStep(lens: seq<nat>, start: nat, i: nat)
    requires i + 1 < |lens|
    ensures Starts(lens, start)[i + 1] == Starts(lens, start)[i] + lens[i]
  {
    StartsAt(lens, start, i);
    StartsAt(lens, start, i + 1);
    SumSnoc(lens, i);
  }

  /** With pieces of positive length the starts increase strictly. */
  lemma {:induction false} StartsIncrease(lens: seq<nat>, start: nat, i: nat, j: nat)
    requires i < j < |lens| && forall k :: 0 <= k < |lens| ==> lens[k] > 0
    ensures Starts(lens, start)[i] < Starts(lens, start)[j]
    decreases j - i
  {
    StartsStep(lens, start, j - 1);
    if i < j - 1 {
      StartsIncrease(lens, start, i, j - 1);
    }
  }

  /** Piece `i` sits in the concatenation at the sum of the earlier lengths. */
  lemma {:induction false} ConcatAt(parts: seq<seq<byte>>, i: nat)
    requires i < |parts|
    ensures Sum(Lengths(parts)[..i]) + |parts[i]| <= |Concat(parts)|
    ensures Concat(parts)[Sum(Lengths(parts)[..i])..Sum(Lengths(parts)[..i]) + |parts[i]|] == parts[i]
  {
    var rest := Concat(parts[1..]);
    assert Concat(parts) == parts[0] + rest;
    if i == 0 {
      assert Lengths(parts)[..0] == [];
      assert (parts[0] + rest)[..|parts[0]|] == parts[0];
    } else {
      ConcatAt(parts[1..], i - 1);
      var at := Sum(Lengths(parts[1..])[..i - 1]);
      assert Lengths(parts)[..i] == [|parts[0]|] + Lengths(parts[1..])[..i - 1];
      assert Sum(Lengths(parts)[..i]) == |parts[0]| + at;
      SliceAfter(parts[0], rest, at, |parts[i]|);
    }
  }

  /** A slice of the second half of a concatenation. */
  lemma SliceAfter(a: seq<byte>, b: seq<byte>, x: nat, k: nat)
    requires x + k <= |b|
    ensures (a + b)[|a| + x..|a| + x + k] == b[x..x + k]
  {
  }

  /** Pieces of one fixed length `width` start at multiples of `width`. */
  lemma {:induction false} SumOfEqual(s: seq<nat>, width: nat)
    requires forall k :: 0 <= k < |s| ==> s[k] == width
    ensures Sum(s) == Span(|s|, width)
  {
    if s != [] {
      SumOfEqual(s[1..], width);
    }
  }

  /** Appending one piece adds its length to the sum. */
  lemma {:induction false} SumAppend(s: seq<nat>, x: nat)
    ensures Sum(s + [x]) == Sum(s) + x
  {
    if s != [] {
      assert (s + [x])[1..] == s[1..] + [x];
      SumAppend(s[1..], x);
    }
  }

  /** Appending one piece adds one start, after all the earlier pieces. */
  lemma {:induction false} StartsSnoc(lens: seq<nat>, start: nat, x: nat)
    ensures Starts(lens + [x], start) == Starts(lens, start) + [start + Sum(lens)]
  {
    if lens != [] {
      assert (lens + [x])[1..] == lens[1..] + [x];
      StartsSnoc(lens[1..], start + lens[0], x);
    }
  }

  /** One step of the running offset: the next piece starts where the offset stands, and
      the offset moves past it. */
  lemma {:induction false} OffsetStep(lens: seq<nat>, x: nat, next: seq<nat>, start: nat, starts: seq<nat>, offset: nat)
    requires next == lens + [x] && starts == Starts(lens, start) && offset == start + Sum(lens)
    ensures starts + [offset] == Starts(next, start) && offset + x == start + Sum(next)
  {
    StartsSnoc(lens, start, x);
    SumAppend(lens, x);
  }

  // ---- A file made of a head, equal-sized entries and bodies ----

  /** Entry `i` of equal-sized entries sits right after the head, at `at`, after `i` entries. */
  lemma {:induction false} EntryAt(head: seq<byte>, entries: seq<seq<byte>>, bodies: seq<seq<byte>>, width: nat, i: nat, at: nat)
    requires i < |entries| && forall k :: 0 <= k < |entries| ==> |entries[k]| == width
    requires at == |head| + Span(i, width)
    ensures at + width <= |head + Concat(entries) + Concat(bodies)|
    ensures (head + Concat(entries) + Concat(bodies))[at..at + width] == entries[i]
  {
    var c := Concat(entries);
    ConcatLength(entries);
    ConcatLength(bodies);
    ConcatAt(entries, i);
    SumOfEqual(Lengths(entries)[..i], width);
    var j := Span(i, width);
    assert c[j..j + width] == entries[i];
    assert (head + c + Concat(bodies))[at..at + width] == c[j..j + width];
  }

  /** Body `i` sits at `at`, after the head, all entries and the earlier bodies. */
  lemma {:induction false} BodyAt(head: seq<byte>, entries: seq<seq<byte>>, bodies: seq<seq<byte>>, width: nat, i: nat, at: nat)
    requires i < |bodies| && forall k :: 0 <= k < |entries| ==> |entries[k]| == width
    requires at == |head| + Span(|entries|, width) + Sum(Lengths(bodies)[..i])
    ensures at + |bodies[i]| <= |head + Concat(entries) + Concat(bodies)|
    ensures (head + Concat(entries) + Concat(bodies))[at..at + |bodies[i]|] == bodies[i]
  {
    var c, d := Concat(entries), Concat(bodies);
    ConcatLength(entries);
    ConcatLength(bodies);
    SumOfEqual(Lengths(entries), width);
    ConcatAt(bodies, i);
    var j := Sum(Lengths(bodies)[..i]);
    assert d[j..j + |bodies[i]|] == bodies[i];
    assert (head + c + d)[at..at + |bodies[i]|] == d[j..j + |bodies[i]|];
  }

  /** The length of such a file. */
  lemma {:induction false} FileLength(head: seq<byte>, entries: seq<seq<byte>>, bodies: seq<seq<byte>>, width: nat)
    requires forall k :: 0 <= k < |entries| ==> |entries[k]| == width
    ensures |head + Concat(entries) + Concat(bodies)| == |head| + Span(|entries|, width) + Sum(Lengths(bodies))
  {
    ConcatLength(entries);
    ConcatLength(bodies);
    SumOfEqual(Lengths(entries), width);
  }
}
