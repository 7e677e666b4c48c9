/** String helpers used to render validation messages. */
module Text {

  /** The parts, in their given order, with `sep` between each adjacent pair
      (PHP's `join(sep, parts)`). */
  function Join(parts: seq<string>, sep: string): string
    decreases |parts|
  {
    if |parts| == 0 then ""
    else if |parts| == 1 then parts[0]
    else parts[0] + sep + Join(parts[1..], sep)
  }

  /** Where the `i`-th part starts in `Join(parts, sep)`: each earlier part
      is followed by one separator. */
  function Offset(parts: seq<string>, sep: string, i: nat): nat
    requires i <= |parts|
    decreases i
  {
    if i == 0 then 0 else Offset(parts, sep, i - 1) + |parts[i - 1]| + |sep|
  }

  /** Shifting the list by one part shifts every offset by that part and a separator. */
  lemma {:induction false} OffsetTail(parts: seq<string>, sep: string, i: nat)
    requires 0 < i <= |parts|
    ensures Offset(parts, sep, i) == |parts[0]| + |sep| + Offset(parts[1..], sep, i - 1)
    decreases i
  {
    if i > 1 {
      OffsetTail(parts, sep, i - 1);
    }
  }

  /** The joined string is exactly as long as all parts and the separators
      between them. */
  lemma {:induction false} JoinLength(parts: seq<string>, sep: string)
    requires |parts| > 0
    ensures |Join(parts, sep)| + |sep| == Offset(parts, sep, |parts|)
    decreases |parts|
  {
    if |parts| > 1 {
      JoinLength(parts[1..], sep);
      OffsetTail(parts, sep, |parts|);
    }
  }

  /** A slice taken past a prefix is the same slice of what follows it. */
  lemma SliceAfter(prefix: string, suffix: string, lo: nat, hi: nat)
    requires lo <= hi <= |suffix|
    ensures (prefix + suffix)[|prefix| + lo..|prefix| + hi] == suffix[lo..hi]
  {
    assert forall k :: 0 <= k < hi - lo ==>
      (prefix + suffix)[|prefix| + lo..|prefix| + hi][k] == suffix[lo..hi][k];
  }

  /** Every part appears in the joined string at its offset, in declared order. */
  lemma {:induction false} JoinAt(parts: seq<string>, sep: string, i: nat)
    requires i < |parts|
    ensures Offset(parts, sep, i) + |parts[i]| <= |Join(parts, sep)|
    ensures i + 1 < |parts| ==> Offset(parts, sep, i + 1) <= |Join(parts, sep)|
    ensures Join(parts, sep)[Offset(parts, sep, i)..Offset(parts, sep, i) + |parts[i]|] == parts[i]
    decreases |parts|
  {
    if |parts| > 1 {
      var rest := Join(parts[1..], sep);
      assert Join(parts, sep) == (parts[0] + sep) + rest;
      if i == 0 {
        assert Join(parts, sep) == parts[0] + (sep + rest);
      } else {
        JoinAt(parts[1..], sep, i - 1);
        OffsetTail(parts, sep, i);
        if i + 1 < |parts| {
          OffsetTail(parts, sep, i + 1);
        }
        var o := Offset(parts[1..], sep, i - 1);
        SliceAfter(parts[0] + sep, rest, o, o + |parts[i]|);
      }
    }
  }

  /** Between each part and the next one the joined string holds the separator. */
  lemma {:induction false} JoinSeparatorAt(parts: seq<string>, sep: string, i: nat)
    requires i + 1 < |parts|
    ensures Offset(parts, sep, i + 1) <= |Join(parts, sep)|
    ensures Join(parts, sep)[Offset(parts, sep, i) + |parts[i]|..Offset(parts, sep, i + 1)] == sep
    decreases |parts|
  {
    JoinAt(parts, sep, i);
    var rest := Join(parts[1..], sep);
    assert Join(parts, sep) == (parts[0] + sep) + rest;
    if i == 0 {
      assert Join(parts, sep) == parts[0] + (sep + rest);
      SliceAfter(parts[0], sep + rest, 0, |sep|);
    } else {
      JoinSeparatorAt(parts[1..], sep, i - 1);
      OffsetTail(parts, sep, i);
      OffsetTail(parts, sep, i + 1);
      var o := Offset(parts[1..], sep, i - 1);
      SliceAfter(parts[0] + sep, rest, o + |parts[i]|, Offset(parts[1..], sep, i));
    }
  }
}
