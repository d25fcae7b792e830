/** The bit set of required fields that pb_decode_noinit keeps in 32-bit words.
    Words are naturals; `1 << k` is Pow2(k) and `allbits >> (32 - n)` is Pow2(n) - 1. */
module PbSeen {
  import opened Bits
  import opened Common
  import opened PbVarint
  import opened PbDescriptor
  import opened PbCodec

  const ALLBITS: nat := 0xFFFF_FFFF

  /** Some seen field is the r-th required one. */
  ghost predicate SeenRequired(fields: seq<Field>, seen: set<nat>, r: nat)
  {
    exists i :: i in seen && i < |fields| && RequiredBefore(fields, i) == r
  }

  /** Bit r of the two words is set exactly when the r-th required field has been seen. */
  ghost predicate Tracks(fields: seq<Field>, seen: set<nat>, words: seq<nat>)
  {
    && |words| == 2 && Below(words[0], 32) && Below(words[1], 32)
    && (forall i :: i in seen ==> i < |fields| && fields[i].htype.Required?)
    && forall r: nat :: r < MAX_REQUIRED_FIELDS ==> (TestBit(words[r / 32], r % 32) <==> SeenRequired(fields, seen, r))
  }

  lemma NothingSeen(fields: seq<Field>)
    ensures Tracks(fields, {}, [0, 0])
  {
    forall k: nat ensures !TestBit(0, k) { ZeroBits(k); }
  }

  /** `fields_seen[r >> 5] |= 1 << (r & 31)` */
  lemma MarkSeen(fields: seq<Field>, seen: set<nat>, words: seq<nat>, i: nat)
    requires Tracks(fields, seen, words) && i < |fields| && fields[i].htype.Required?
    ensures var r := RequiredBefore(fields, i);
      Tracks(fields, seen + {i}, if r < MAX_REQUIRED_FIELDS then words[r / 32 := Or(words[r / 32], Pow2(r % 32))] else words)
  {
    hide TestBit, Or, Pow2, RequiredBefore;
    var r := RequiredBefore(fields, i);
    var words' := if r < MAX_REQUIRED_FIELDS then words[r / 32 := Or(words[r / 32], Pow2(r % 32))] else words;
    if r < MAX_REQUIRED_FIELDS {
      forall k: nat ensures TestBit(words'[r / 32], k) == (TestBit(words[r / 32], k) || k == r % 32) {
        OrBits(words[r / 32], Pow2(r % 32), k);
        Pow2Bits(r % 32, k);
      }
    }
    forall q: nat | q < MAX_REQUIRED_FIELDS
      ensures TestBit(words'[q / 32], q % 32) <==> SeenRequired(fields, seen + {i}, q)
    {
      assert TestBit(words[q / 32], q % 32) <==> SeenRequired(fields, seen, q);
      SeenMore(fields, seen, i, q);
    }
  }

  lemma SeenMore(fields: seq<Field>, seen: set<nat>, i: nat, q: nat)
    requires i < |fields|
    ensures SeenRequired(fields, seen + {i}, q) <==> SeenRequired(fields, seen, q) || q == RequiredBefore(fields, i)
  {
    hide RequiredBefore;
    if q == RequiredBefore(fields, i) {
      assert i in seen + {i};
    }
    if SeenRequired(fields, seen, q) {
      var j :| j in seen && j < |fields| && RequiredBefore(fields, j) == q;
      assert j in seen + {i};
    }
  }

  lemma {:induction false} RequiredBeforeMono(fields: seq<Field>, i: nat, j: nat)
    requires i < j <= |fields|
    ensures RequiredBefore(fields, j) >= RequiredBefore(fields, i) + (if fields[i].htype.Required? then 1 else 0)
  {
    if i + 1 < j { RequiredBeforeMono(fields, i, j - 1); }
  }

  /** The r-th required field. */
  lemma {:induction false} NthRequired(fields: seq<Field>, r: nat, n: nat) returns (i: nat)
    requires n <= |fields| && r < RequiredBefore(fields, n)
    ensures i < n && fields[i].htype.Required? && RequiredBefore(fields, i) == r
  {
    i := n - 1;
    if r < RequiredBefore(fields, n - 1) { i := NthRequired(fields, r, n - 1); }
  }

  /** All required fields (of the first 64) are seen exactly when all their ordinals are. */
  lemma SeenByOrdinal(fields: seq<Field>, seen: set<nat>)
    requires forall i :: i in seen ==> i < |fields| && fields[i].htype.Required?
    ensures RequiredSeen(fields, seen) <==>
      forall r: nat :: r < Min(RequiredBefore(fields, |fields|), MAX_REQUIRED_FIELDS) ==> SeenRequired(fields, seen, r)
  {
    hide RequiredBefore;
    var n := RequiredBefore(fields, |fields|);
    if RequiredSeen(fields, seen) {
      forall r: nat | r < Min(n, MAX_REQUIRED_FIELDS) ensures SeenRequired(fields, seen, r) {
        var i := NthRequired(fields, r, |fields|);
        assert i in seen;
      }
    }
    if forall r: nat :: r < Min(n, MAX_REQUIRED_FIELDS) ==> SeenRequired(fields, seen, r) {
      forall i | 0 <= i < |fields| && fields[i].htype.Required? && RequiredBefore(fields, i) < MAX_REQUIRED_FIELDS
        ensures i in seen
      {
        RequiredBeforeMono(fields, i, |fields|);
        assert SeenRequired(fields, seen, RequiredBefore(fields, i));
        var j :| j in seen && j < |fields| && RequiredBefore(fields, j) == RequiredBefore(fields, i);
        if i < j { RequiredBeforeMono(fields, i, j); }
        if j < i { RequiredBeforeMono(fields, j, i); }
      }
    }
  }

  /** The final test of pb_decode_noinit: whole words against all ones, the rest against a mask. */
  predicate WordsComplete(words: seq<nat>, count: nat)
    requires |words| == 2 && count <= MAX_REQUIRED_FIELDS
  {
    && (forall k :: 0 <= k < count / 32 ==> words[k] == ALLBITS)
    && (count % 32 != 0 ==> words[count / 32] == Pow2(count % 32) - 1)
  }

  lemma CompleteIsSeen(fields: seq<Field>, seen: set<nat>, words: seq<nat>, count: nat)
    requires Tracks(fields, seen, words) && count == Min(RequiredBefore(fields, |fields|), MAX_REQUIRED_FIELDS)
    ensures WordsComplete(words, count) <==> RequiredSeen(fields, seen)
  {
    hide TestBit, Pow2, RequiredBefore, RequiredSeen;
    SeenByOrdinal(fields, seen);
    Pow2Values();
    forall k | 0 <= k < count / 32 ensures words[k] == ALLBITS <==> Full(words[k], 32) { MaskBits(words[k], 32); }
    if count % 32 != 0 {
      forall k: nat | k >= count % 32 ensures !TestBit(words[count / 32], k) {
        if k < 32 { NotYet(fields, seen, words, count / 32 * 32 + k); }
      }
      MaskBits(words[count / 32], count % 32);
    }
    FullWords(fields, seen, words, count);
  }

  lemma NotYet(fields: seq<Field>, seen: set<nat>, words: seq<nat>, r: nat)
    requires Tracks(fields, seen, words) && RequiredBefore(fields, |fields|) <= r < MAX_REQUIRED_FIELDS
    ensures !TestBit(words[r / 32], r % 32)
  {
    hide TestBit, RequiredBefore;
    if SeenRequired(fields, seen, r) {
      var i :| i in seen && i < |fields| && RequiredBefore(fields, i) == r;
      RequiredBeforeMono(fields, i, |fields|);
    }
  }

  lemma FullWords(fields: seq<Field>, seen: set<nat>, words: seq<nat>, count: nat)
    requires Tracks(fields, seen, words) && count <= MAX_REQUIRED_FIELDS
    ensures (forall r: nat :: r < count ==> SeenRequired(fields, seen, r)) <==>
      (forall k :: 0 <= k < count / 32 ==> Full(words[k], 32)) && (count % 32 != 0 ==> Full(words[count / 32], count % 32))
  {
    hide TestBit, SeenRequired;
    if forall r: nat :: r < count ==> SeenRequired(fields, seen, r) {
      forall k, b: nat | 0 <= k < 2 && b < 32 && 32 * k + b < count ensures TestBit(words[k], b) {
        assert SeenRequired(fields, seen, 32 * k + b);
      }
    }
    if (forall k :: 0 <= k < count / 32 ==> Full(words[k], 32)) && (count % 32 != 0 ==> Full(words[count / 32], count % 32)) {
      forall r: nat | r < count ensures SeenRequired(fields, seen, r) {
        assert TestBit(words[r / 32], r % 32);
      }
    }
  }
}
