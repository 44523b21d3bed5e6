/** Bytes, and byte strings found at a position of a text. */
module Bytes {
  type byte = b: int | 0 <= b < 256
  type bytes = seq<byte>

  /** A byte string stands at a position of a text. */
  predicate Occurs(text: bytes, pos: nat, s: bytes) {
    pos + |s| <= |text| && forall k | 0 <= k < |s| :: text[pos + k] == s[k]
  }

  lemma OccursAt(text: bytes, pos: nat, s: bytes, k: nat)
    requires Occurs(text, pos, s) && k < |s|
    ensures pos + |s| <= |text| && text[pos + k] == s[k]
  {
  }

  lemma OccursConcat(text: bytes, pos: nat, a: bytes, b: bytes)
    ensures Occurs(text, pos, a + b) <==> Occurs(text, pos, a) && Occurs(text, pos + |a|, b)
  {
    var s := a + b;
    assert forall k | 0 <= k < |a| :: s[k] == a[k];
    assert forall k | 0 <= k < |b| :: s[|a| + k] == b[k];
    if Occurs(text, pos, s) {
      forall k | 0 <= k < |b| ensures text[pos + |a| + k] == b[k] {
        assert text[pos + (|a| + k)] == s[|a| + k];
      }
    }
    if Occurs(text, pos, a) && Occurs(text, pos + |a|, b) {
      forall k | 0 <= k < |s| ensures text[pos + k] == s[k] {
        if k >= |a| {
          assert text[pos + |a| + (k - |a|)] == b[k - |a|];
        }
      }
    }
  }

  lemma OccursSlice(text: bytes, from: nat, to: nat)
    requires from <= to <= |text|
    ensures Occurs(text, from, text[from..to])
  {
  }

  lemma SliceOccurs(text: bytes, pos: nat, s: bytes)
    requires Occurs(text, pos, s)
    ensures pos + |s| <= |text| && text[pos..pos + |s|] == s
  {
  }

  /** Pieces that stand one behind the other. */
  lemma OccursFour(text: bytes, pos: nat, a: bytes, b: bytes, c: bytes, d: bytes)
    requires Occurs(text, pos, a) && Occurs(text, pos + |a|, b)
    requires Occurs(text, pos + |a| + |b|, c) && Occurs(text, pos + |a| + |b| + |c|, d)
    ensures Occurs(text, pos, a + (b + (c + d)))
  {
    hide Occurs;
    OccursConcat(text, pos + |a| + |b|, c, d);
    OccursConcat(text, pos + |a|, b, c + d);
    OccursConcat(text, pos, a, b + (c + d));
  }

  lemma OccursWhole(text: bytes, s: bytes)
    requires Occurs(text, 0, s) && |s| == |text|
    ensures s == text
  {
    assert forall k | 0 <= k < |s| :: text[0 + k] == s[k];
  }
}
