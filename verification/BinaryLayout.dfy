/**
 Fixed binary layouts: big-endian numbers, and byte strings joined from fields
 of known widths and cut back into them.
 */
module BinaryLayout {
  import opened KeyBits

  function BigEndian(width: nat, v: nat): (r: Bytes)
    ensures |r| == width
  {
    if width == 0 then [] else BigEndian(width - 1, v / 256) + [v % 256]
  }

  function FromBigEndian(bytes: Bytes): nat {
    if |bytes| == 0 then 0
    else 256 * FromBigEndian(bytes[..|bytes| - 1]) + bytes[|bytes| - 1]
  }

  function Pow256(n: nat): (r: nat)
    ensures r > 0
  {
    if n == 0 then 1 else 256 * Pow256(n - 1)
  }

  lemma Pow256Grows(m: nat, n: nat)
    requires m <= n
    ensures Pow256(m) <= Pow256(n)
  {
  }

  lemma {:induction false} NumberRoundTrip(width: nat, v: nat)
    requires v < Pow256(width)
    ensures FromBigEndian(BigEndian(width, v)) == v
  {
    if width > 0 {
      NumberRoundTrip(width - 1, v / 256);
      assert BigEndian(width, v)[..width - 1] == BigEndian(width - 1, v / 256);
    }
  }

  lemma {:induction false} BytesRoundTrip(bytes: Bytes)
    ensures FromBigEndian(bytes) < Pow256(|bytes|)
    ensures BigEndian(|bytes|, FromBigEndian(bytes)) == bytes
  {
    if |bytes| > 0 {
      var front := bytes[..|bytes| - 1];
      BytesRoundTrip(front);
      assert bytes == front + [bytes[|bytes| - 1]];
    }
  }

  function Blank(n: nat): (r: Bytes)
    ensures |r| == n
  {
    seq(n, _ => 0)
  }

  function Join(fields: seq<Bytes>): Bytes {
    if |fields| == 0 then [] else fields[0] + Join(fields[1..])
  }

  function Widths(fields: seq<Bytes>): (w: seq<nat>)
    ensures |w| == |fields|
  {
    seq(|fields|, i requires 0 <= i < |fields| => |fields[i]|)
  }

  function Total(widths: seq<nat>): nat {
    if |widths| == 0 then 0 else widths[0] + Total(widths[1..])
  }

  /** The fields of these widths, read off the front. */
  function Cut(bytes: Bytes, widths: seq<nat>): (fields: seq<Bytes>)
    requires |bytes| >= Total(widths)
    ensures |fields| == |widths|
    ensures forall i :: 0 <= i < |fields| ==> |fields[i]| == widths[i]
    decreases |widths|
  {
    if |widths| == 0 then [] else [bytes[..widths[0]]] + Cut(bytes[widths[0]..], widths[1..])
  }

  lemma {:induction false} CutJoined(fields: seq<Bytes>)
    ensures |Join(fields)| == Total(Widths(fields))
    ensures Cut(Join(fields), Widths(fields)) == fields
  {
    if |fields| > 0 {
      CutJoined(fields[1..]);
      assert Widths(fields)[1..] == Widths(fields[1..]);
      assert Join(fields)[|fields[0]|..] == Join(fields[1..]);
    }
  }

  lemma {:induction false} JoinedCuts(bytes: Bytes, widths: seq<nat>)
    requires |bytes| == Total(widths)
    ensures Join(Cut(bytes, widths)) == bytes
    decreases |widths|
  {
    if |widths| > 0 {
      JoinedCuts(bytes[widths[0]..], widths[1..]);
      assert Cut(bytes, widths)[1..] == Cut(bytes[widths[0]..], widths[1..]);
    }
  }

  function LittleEndian(width: nat, v: nat): (r: Bytes)
    ensures |r| == width
  {
    if width == 0 then [] else [v % 256] + LittleEndian(width - 1, v / 256)
  }

  function FromLittleEndian(bytes: Bytes): nat {
    if |bytes| == 0 then 0 else bytes[0] + 256 * FromLittleEndian(bytes[1..])
  }

  lemma {:induction false} LittleRoundTrip(width: nat, v: nat)
    requires v < Pow256(width)
    ensures FromLittleEndian(LittleEndian(width, v)) == v
  {
    if width > 0 {
      LittleRoundTrip(width - 1, v / 256);
    }
  }

  lemma {:induction false} LittleRestored(bytes: Bytes)
    ensures FromLittleEndian(bytes) < Pow256(|bytes|)
    ensures LittleEndian(|bytes|, FromLittleEndian(bytes)) == bytes
  {
    if |bytes| > 0 {
      LittleRestored(bytes[1..]);
      assert bytes == [bytes[0]] + bytes[1..];
    }
  }
}
