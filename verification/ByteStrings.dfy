/** Bytes, and where one string of them lies in another. */
module ByteStrings {

  newtype byte = b: int | 0 <= b < 256

  type Bytes = seq<byte>

  /** `part` lies in `data` at `i`. */
  ghost predicate LiesAt(data: Bytes, i: nat, part: Bytes) {
    i + |part| <= |data| && data[i..i + |part|] == part
  }

  lemma LiesWithin(data: Bytes, i: nat, a: Bytes, b: Bytes)
    requires LiesAt(data, i, a + b)
    ensures LiesAt(data, i, a) && LiesAt(data, i + |a|, b)
  {
    var whole := a + b;
    var there := data[i..i + |whole|];
    assert data[i..i + |a|] == there[..|a|] == a;
    assert data[i + |a|..i + |whole|] == there[|a|..] == b;
  }

  /** A string of ASCII as bytes. */
  function Ascii(s: string): (b: Bytes)
    ensures |b| == |s| && forall i :: 0 <= i < |s| && s[i] as int < 128 ==> b[i] as int == s[i] as int
  {
    seq(|s|, i requires 0 <= i < |s| => (s[i] as int % 128) as byte)
  }
}
