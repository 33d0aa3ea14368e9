/** Files of little-endian words, as the out-of-core graph format uses them (crates/hg_analytics/src/ooc.rs). */
module WordFiles {
  type Byte = x: nat | x < 256

  /** The k low bytes of x, least significant first: a word of k bytes keeps x modulo 256^k. */
  function Bytes(k: nat, x: nat): (bs: seq<Byte>)
    ensures |bs| == k
  {
    if k == 0 then [] else [x % 256] + Bytes(k - 1, x / 256)
  }

  /** The low byte comes first, in words of four and of eight bytes. */
  lemma LowByteFirst(x: nat)
    ensures Bytes(4, x) == [x % 256, x / 256 % 256, x / 256 / 256 % 256, x / 256 / 256 / 256 % 256]
    ensures Bytes(8, x) == Bytes(4, x) + Bytes(4, x / 256 / 256 / 256 / 256)
  {
    BytesSplit(4, 4, x);
    OneMore(3, x);
    OneMore(2, x / 256);
    OneMore(1, x / 256 / 256);
    OneMore(0, x / 256 / 256 / 256);
    assert High(4, x) == High(3, x / 256) == High(2, x / 256 / 256) == High(1, x / 256 / 256 / 256);
  }

  lemma OneMore(k: nat, x: nat)
    ensures Bytes(k + 1, x) == [x % 256] + Bytes(k, x / 256)
  {}

  /** What is left of x without its k low bytes. */
  function High(k: nat, x: nat): nat { if k == 0 then x else High(k - 1, x / 256) }

  lemma {:induction false} BytesSplit(k: nat, j: nat, x: nat)
    ensures Bytes(k + j, x) == Bytes(k, x) + Bytes(j, High(k, x))
  {
    if k > 0 {
      BytesSplit(k - 1, j, x / 256);
    }
  }

  /** Word i of a region begins at byte k * i. */
  lemma {:induction false} EncodeAt(k: nat, ws: seq<nat>, i: nat)
    requires i < |ws|
    ensures k * i + k <= |Encode(k, ws)| && Encode(k, ws)[k * i..k * i + k] == Bytes(k, ws[i])
  {
    var rest := Encode(k, ws[1..]);
    assert Encode(k, ws) == Bytes(k, ws[0]) + rest;
    hide Encode, Bytes;
    if i == 0 {
      assert k * i == 0;
    } else {
      EncodeAt(k, ws[1..], i - 1);
      Distribute(k, i - 1);
      SliceShift(Bytes(k, ws[0]), rest, k * (i - 1), k);
    }
  }

  lemma SliceShift(a: seq<Byte>, b: seq<Byte>, at: nat, k: nat)
    requires at + k <= |b|
    ensures (a + b)[|a| + at..|a| + at + k] == b[at..at + k]
  {}

  function Value(bs: seq<Byte>): nat {
    if bs == [] then 0 else bs[0] + 256 * Value(bs[1..])
  }

  function Power(k: nat): (p: nat)
    ensures p > 0
  {
    if k == 0 then 1 else 256 * Power(k - 1)
  }

  lemma {:induction false} WordRoundTrip(k: nat, x: nat)
    requires x < Power(k)
    ensures Value(Bytes(k, x)) == x
  {
    if k > 0 {
      assert x / 256 < Power(k - 1);
      WordRoundTrip(k - 1, x / 256);
      assert Bytes(k, x)[1..] == Bytes(k - 1, x / 256);
    }
  }

  function Encode(k: nat, ws: seq<nat>): seq<Byte> {
    if ws == [] then [] else Bytes(k, ws[0]) + Encode(k, ws[1..])
  }

  function Decode(k: nat, bs: seq<Byte>): seq<nat>
    decreases |bs|
  {
    if k == 0 || |bs| < k then [] else [Value(bs[..k])] + Decode(k, bs[k..])
  }

  lemma {:induction false} EncodeSize(k: nat, ws: seq<nat>)
    ensures |Encode(k, ws)| == k * |ws|
  {
    if ws != [] {
      EncodeSize(k, ws[1..]);
      Distribute(k, |ws| - 1);
    }
  }

  lemma Distribute(k: nat, i: nat)
    ensures k * (i + 1) == k * i + k
  {}

  lemma {:induction false} DecodeEncode(k: nat, ws: seq<nat>)
    requires k > 0 && forall i :: 0 <= i < |ws| ==> ws[i] < Power(k)
    ensures Decode(k, Encode(k, ws)) == ws
  {
    if ws != [] {
      var bs := Encode(k, ws);
      assert bs[..k] == Bytes(k, ws[0]) && bs[k..] == Encode(k, ws[1..]);
      WordRoundTrip(k, ws[0]);
      DecodeEncode(k, ws[1..]);
    }
  }

  function Splice(bs: seq<Byte>, at: nat, part: seq<Byte>): (r: seq<Byte>)
    requires at + |part| <= |bs|
    ensures |r| == |bs|
  {
    bs[..at] + part + bs[at + |part|..]
  }

  /** Overwriting one word of a file of words. */
  lemma {:induction false} EncodeUpdate(k: nat, ws: seq<nat>, i: nat, x: nat)
    requires i < |ws|
    ensures k * i + k <= |Encode(k, ws)|
    ensures Splice(Encode(k, ws), k * i, Bytes(k, x)) == Encode(k, ws[i := x])
    decreases i
  {
    EncodeSize(k, ws);
    Distribute(k, i);
    MulMonotone(k, i + 1, |ws|);
    var rest := Encode(k, ws[1..]);
    if i == 0 {
      assert ws[0 := x][1..] == ws[1..];
    } else {
      EncodeUpdate(k, ws[1..], i - 1, x);
      Distribute(k, i - 1);
      assert ws[i := x][1..] == ws[1..][i - 1 := x];
      SpliceShift(Bytes(k, ws[0]), rest, k * (i - 1), Bytes(k, x));
    }
  }

  lemma MulMonotone(k: nat, i: nat, j: nat)
    requires i <= j
    ensures k * i <= k * j
  {}

  lemma SpliceShift(front: seq<Byte>, bs: seq<Byte>, at: nat, part: seq<Byte>)
    requires at + |part| <= |bs|
    ensures Splice(front + bs, |front| + at, part) == front + Splice(bs, at, part)
  {
    var all := front + bs;
    assert all[..|front| + at] == front + bs[..at];
    assert all[|front| + at + |part|..] == bs[at + |part|..];
  }

  lemma SpliceBefore(bs: seq<Byte>, back: seq<Byte>, at: nat, part: seq<Byte>)
    requires at + |part| <= |bs|
    ensures Splice(bs + back, at, part) == Splice(bs, at, part) + back
  {
    var all := bs + back;
    assert all[..at] == bs[..at];
    assert all[at + |part|..] == bs[at + |part|..] + back;
  }

  /** Overwriting one word inside a larger file. */
  lemma SpliceWord(front: seq<Byte>, k: nat, ws: seq<nat>, back: seq<Byte>, i: nat, x: nat)
    requires i < |ws|
    ensures |front| + k * i + k <= |front + Encode(k, ws) + back|
    ensures Splice(front + Encode(k, ws) + back, |front| + k * i, Bytes(k, x)) == front + Encode(k, ws[i := x]) + back
  {
    hide Splice, Encode, Bytes;
    EncodeUpdate(k, ws, i, x);
    var words, part, at := Encode(k, ws), Bytes(k, x), k * i;
    SpliceShift(front, words, at, part);
    SpliceBefore(front + words, back, |front| + at, part);
  }

  function ZeroSeq(n: nat): seq<nat> { seq(n, _ => 0) }

  function Zeros(n: nat): seq<Byte> { seq(n, _ => 0) }

  lemma {:induction false} ZeroBytes(k: nat)
    ensures Bytes(k, 0) == Zeros(k)
  {
    if k > 0 {
      ZeroBytes(k - 1);
    }
  }

  /** A zeroed file region is an array of zero words. */
  lemma {:induction false} ZeroWords(k: nat, n: nat)
    ensures Encode(k, ZeroSeq(n)) == Zeros(k * n)
  {
    if n > 0 {
      ZeroBytes(k);
      ZeroWords(k, n - 1);
      assert ZeroSeq(n)[1..] == ZeroSeq(n - 1);
      Distribute(k, n - 1);
    }
  }

  method Write(file: array<Byte>, at: nat, part: seq<Byte>)
    requires at + |part| <= file.Length
    modifies file
    ensures file[..] == Splice(old(file[..]), at, part)
  {
    hide Splice;
    SpliceNothing(file[..], at);
    for i := 0 to |part|
      invariant file.Length == |old(file[..])| && file[..] == Splice(old(file[..]), at, part[..i])
    {
      SpliceMore(old(file[..]), at, part, i);
      file[at + i] := part[i];
    }
    assert part[..|part|] == part;
  }

  lemma SpliceNothing(bs: seq<Byte>, at: nat)
    requires at <= |bs|
    ensures Splice(bs, at, []) == bs
  {}

  lemma SpliceMore(bs: seq<Byte>, at: nat, part: seq<Byte>, i: nat)
    requires at + |part| <= |bs| && i < |part|
    ensures Splice(bs, at, part[..i])[at + i := part[i]] == Splice(bs, at, part[..i + 1])
  {}
}
