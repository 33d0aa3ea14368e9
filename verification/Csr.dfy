/** The out-of-core in-edge CSR file and its three builders (crates/hg_analytics/src/ooc.rs). */
module Csr {
  import opened Basics
  import opened Graphs
  import opened PageRankSpec
  import opened WordFiles

  // ---- What the file holds -----------------------------------------------------------------------

  /** The sources of the nodes in [lo, hi), node by node. */
  function Into(g: Graph, lo: nat, hi: nat): seq<nat> {
    if hi <= lo then [] else Into(g, lo, hi - 1) + Sources(g.n, g.edges, hi - 1)
  }

  lemma {:induction false} IntoSplit(g: Graph, lo: nat, mid: nat, hi: nat)
    requires lo <= mid <= hi
    ensures Into(g, lo, hi) == Into(g, lo, mid) + Into(g, mid, hi)
  {
    if mid < hi {
      IntoSplit(g, lo, mid, hi - 1);
    }
  }

  function Offset(g: Graph, v: nat): nat { |Into(g, 0, v)| }

  function Offsets(g: Graph): seq<nat> { seq(g.n + 1, v requires 0 <= v => Offset(g, v)) }

  function OutDegs(g: Graph): seq<nat> { seq(g.n, u requires 0 <= u => OutDeg(g.n, g.edges, u)) }

  lemma {:induction false} OffsetsRise(g: Graph, v: nat, w: nat)
    requires v <= w
    ensures Offset(g, v) <= Offset(g, w)
    ensures v < w ==> Offset(g, v) + |Sources(g.n, g.edges, v)| == Offset(g, v + 1) <= Offset(g, w)
  {
    if v < w {
      OffsetsRise(g, v, w - 1);
    }
  }

  /** The file of a graph: node and edge counts, offsets, in-neighbours, out-degrees. */
  function File(g: Graph): seq<Byte> {
    Encode(8, [g.n, Offset(g, g.n)]) + Encode(8, Offsets(g)) + Encode(4, Into(g, 0, g.n)) + Encode(4, OutDegs(g))
  }

  // ---- Degrees and offsets -----------------------------------------------------------------------

  method CountDegrees(n: nat, edges: seq<(nat, nat)>) returns (inDeg: seq<nat>, outDeg: seq<nat>)
    ensures |inDeg| == n && forall v :: 0 <= v < n ==> inDeg[v] == |Sources(n, edges, v)|
    ensures outDeg == OutDegs(Graph(n, edges))
  {
    inDeg, outDeg := seq(n, _ => 0), seq(n, _ => 0);
    for i := 0 to |edges|
      invariant |inDeg| == n && forall v :: 0 <= v < n ==> inDeg[v] == |Sources(n, edges[..i], v)|
      invariant |outDeg| == n && forall u :: 0 <= u < n ==> outDeg[u] == OutDeg(n, edges[..i], u)
    {
      var (u, v) := edges[i];
      assert edges[..i + 1][..i] == edges[..i];
      if u < n && v < n {
        inDeg := inDeg[v := inDeg[v] + 1];
        outDeg := outDeg[u := outDeg[u] + 1];
      }
    }
    assert edges[..|edges|] == edges;
  }

  method PrefixSums(ghost g: Graph, inDeg: seq<nat>) returns (offsets: seq<nat>)
    requires |inDeg| == g.n && forall v :: 0 <= v < g.n ==> inDeg[v] == |Sources(g.n, g.edges, v)|
    ensures offsets == Offsets(g)
  {
    offsets := [0];
    for v := 0 to |inDeg|
      invariant |offsets| == v + 1 && forall w :: 0 <= w <= v ==> offsets[w] == Offset(g, w)
    {
      offsets := offsets + [offsets[v] + inDeg[v]];
    }
  }

  // ---- Placing the in-neighbours -----------------------------------------------------------------

  /** After the first i edges, v's part of the buffer holds v's sources so far and the cursor is just behind them. */
  ghost predicate Placed(g: Graph, i: nat, base: nat, buf: seq<nat>, cursor: seq<nat>, v: nat) {
    && i <= |g.edges| && v < |cursor| && base <= Offset(g, v)
    && cursor[v] == Offset(g, v) + |Sources(g.n, g.edges[..i], v)| <= base + |buf|
    && buf[Offset(g, v) - base..cursor[v] - base] == Sources(g.n, g.edges[..i], v)
  }

  ghost predicate AllPlaced(g: Graph, i: nat, lo: nat, hi: nat, buf: seq<nat>, cursor: seq<nat>) {
    && lo <= hi <= g.n && |cursor| == g.n + 1 && Offset(g, lo) + |buf| == Offset(g, hi)
    && forall v: nat :: lo <= v < hi ==> Placed(g, i, Offset(g, lo), buf, cursor, v)
  }

  lemma {:induction false} SourcesGrow(n: nat, edges: seq<(nat, nat)>, i: nat, v: nat)
    requires i <= |edges|
    ensures |Sources(n, edges[..i], v)| <= |Sources(n, edges, v)|
    decreases |edges|
  {
    if i < |edges| {
      SourcesGrow(n, edges[..|edges| - 1], i, v);
      assert edges[..|edges| - 1][..i] == edges[..i];
    } else {
      assert edges[..i] == edges;
    }
  }

  lemma SourcesStep(n: nat, edges: seq<(nat, nat)>, i: nat, v: nat)
    requires i < |edges|
    ensures Sources(n, edges[..i + 1], v)
         == Sources(n, edges[..i], v) + if ValidEdge(n, edges[i]) && edges[i].1 == v then [edges[i].0] else []
  {
    assert edges[..i + 1][..i] == edges[..i];
  }

  lemma OffsetInRange(g: Graph, lo: nat, hi: nat, v: nat)
    requires lo <= v < hi
    ensures Offset(g, lo) <= Offset(g, v) && Offset(g, v) + |Sources(g.n, g.edges, v)| == Offset(g, v + 1) <= Offset(g, hi)
  {
    OffsetsRise(g, lo, v);
    OffsetsRise(g, v, hi);
  }

  lemma NothingPlaced(g: Graph, lo: nat, hi: nat, buf: seq<nat>, cursor: seq<nat>)
    requires lo <= hi <= g.n && |cursor| == g.n + 1 && Offset(g, lo) + |buf| == Offset(g, hi)
    requires forall v: nat :: lo <= v < hi ==> cursor[v] == Offset(g, v)
    ensures AllPlaced(g, 0, lo, hi, buf, cursor)
  {
    hide Offset;
    forall v: nat | lo <= v < hi ensures Placed(g, 0, Offset(g, lo), buf, cursor, v) {
      OffsetInRange(g, lo, hi, v);
    }
  }

  /** The cursor of a node with an edge still to come is inside the node's own range. */
  lemma CursorInRange(g: Graph, i: nat, lo: nat, hi: nat, buf: seq<nat>, cursor: seq<nat>)
    requires i < |g.edges| && AllPlaced(g, i, lo, hi, buf, cursor)
    requires ValidEdge(g.n, g.edges[i]) && lo <= g.edges[i].1 < hi
    ensures Offset(g, lo) <= Offset(g, g.edges[i].1) <= cursor[g.edges[i].1] < Offset(g, g.edges[i].1 + 1)
    ensures Offset(g, g.edges[i].1 + 1) <= Offset(g, lo) + |buf|
  {
    hide Offset;
    var v := g.edges[i].1;
    OffsetInRange(g, lo, hi, v);
    SourcesStep(g.n, g.edges, i, v);
    SourcesGrow(g.n, g.edges, i + 1, v);
    assert Placed(g, i, Offset(g, lo), buf, cursor, v);
  }

  /** Placing one edge disturbs no other node's part. */
  lemma PlaceOne(g: Graph, i: nat, lo: nat, hi: nat, buf: seq<nat>, cursor: seq<nat>)
    requires i < |g.edges| && AllPlaced(g, i, lo, hi, buf, cursor)
    ensures ValidEdge(g.n, g.edges[i]) && lo <= g.edges[i].1 < hi ==>
              var (u, v) := g.edges[i];
              Offset(g, lo) <= cursor[v] < Offset(g, lo) + |buf| &&
              AllPlaced(g, i + 1, lo, hi, buf[cursor[v] - Offset(g, lo) := u], cursor[v := cursor[v] + 1])
    ensures !(ValidEdge(g.n, g.edges[i]) && lo <= g.edges[i].1 < hi) ==> AllPlaced(g, i + 1, lo, hi, buf, cursor)
  {
    hide Offset, AllPlaced;
    AllPlacedFacts(g, i, lo, hi, buf, cursor);
    var base, i' := Offset(g, lo), i + 1;
    var (u, v) := g.edges[i];
    if ValidEdge(g.n, g.edges[i]) && lo <= v < hi {
      CursorInRange(g, i, lo, hi, buf, cursor);
      var at := cursor[v] - base;
      var buf', cursor' := buf[at := u], cursor[v := cursor[v] + 1];
      forall w: nat | lo <= w < hi ensures Placed(g, i', base, buf', cursor', w) {
        PlaceKeeps(g, i, lo, hi, buf, cursor, w);
      }
      AllPlacedFrom(g, i + 1, lo, hi, buf', cursor');
    } else {
      forall w: nat | lo <= w < hi ensures Placed(g, i', base, buf, cursor, w) {
        SourcesStep(g.n, g.edges, i, w);
        assert Placed(g, i, base, buf, cursor, w);
      }
      AllPlacedFrom(g, i + 1, lo, hi, buf, cursor);
    }
  }

  lemma AllPlacedFacts(g: Graph, i: nat, lo: nat, hi: nat, buf: seq<nat>, cursor: seq<nat>)
    requires AllPlaced(g, i, lo, hi, buf, cursor)
    ensures lo <= hi <= g.n && |cursor| == g.n + 1 && Offset(g, lo) + |buf| == Offset(g, hi)
    ensures forall v: nat :: lo <= v < hi ==> Placed(g, i, Offset(g, lo), buf, cursor, v)
  {}

  lemma AllPlacedFrom(g: Graph, i: nat, lo: nat, hi: nat, buf: seq<nat>, cursor: seq<nat>)
    requires lo <= hi <= g.n && |cursor| == g.n + 1 && Offset(g, lo) + |buf| == Offset(g, hi)
    requires forall v: nat :: lo <= v < hi ==> Placed(g, i, Offset(g, lo), buf, cursor, v)
    ensures AllPlaced(g, i, lo, hi, buf, cursor)
  {}

  /** Where one edge goes, seen from node w: behind w's sources if it is into w, outside w's part otherwise. */
  lemma PlaceAway(g: Graph, i: nat, lo: nat, hi: nat, cursor: seq<nat>, w: nat)
    requires i < |g.edges| && lo <= w < hi && lo <= g.edges[i].1 < hi && g.edges[i].1 != w
    requires |cursor| == g.n + 1 && w <= g.n && g.edges[i].1 <= g.n
    requires Offset(g, g.edges[i].1) <= cursor[g.edges[i].1] < Offset(g, g.edges[i].1 + 1)
    requires Offset(g, w) <= cursor[w] <= Offset(g, w + 1)
    ensures !(Offset(g, w) <= cursor[g.edges[i].1] < cursor[w])
  {
    hide Offset;
    var v := g.edges[i].1;
    if w < v {
      OffsetsRise(g, w + 1, v);
    } else {
      OffsetsRise(g, v + 1, w);
    }
  }

  lemma PlaceKeeps(g: Graph, i: nat, lo: nat, hi: nat, buf: seq<nat>, cursor: seq<nat>, w: nat)
    requires i < |g.edges| && AllPlaced(g, i, lo, hi, buf, cursor) && lo <= w < hi
    requires ValidEdge(g.n, g.edges[i]) && lo <= g.edges[i].1 < hi
    requires |cursor| == g.n + 1 && Offset(g, lo) <= cursor[g.edges[i].1] < Offset(g, lo) + |buf|
    ensures var (u, v) := g.edges[i];
            Placed(g, i + 1, Offset(g, lo), buf[cursor[v] - Offset(g, lo) := u], cursor[v := cursor[v] + 1], w)
  {
    hide Offset, Sources;
    CursorInRange(g, i, lo, hi, buf, cursor);
    AllPlacedFacts(g, i, lo, hi, buf, cursor);
    SourcesStep(g.n, g.edges, i, w);
    OffsetInRange(g, lo, hi, w);
    SourcesGrow(g.n, g.edges, i, w);
    assert Placed(g, i, Offset(g, lo), buf, cursor, w);
    if w != g.edges[i].1 {
      PlaceAway(g, i, lo, hi, cursor, w);
    }
    PlaceAt(g, i, Offset(g, lo), buf, cursor, w);
  }

  lemma PlaceAt(g: Graph, i: nat, base: nat, buf: seq<nat>, cursor: seq<nat>, w: nat)
    requires i < |g.edges| && ValidEdge(g.n, g.edges[i]) && Placed(g, i, base, buf, cursor, w)
    requires g.edges[i].1 < |cursor| && base <= cursor[g.edges[i].1] < base + |buf|
    requires w != g.edges[i].1 ==> !(Offset(g, w) <= cursor[g.edges[i].1] < cursor[w])
    requires Sources(g.n, g.edges[..i + 1], w) == Sources(g.n, g.edges[..i], w) + if g.edges[i].1 == w then [g.edges[i].0] else []
    ensures var (u, v) := g.edges[i];
            Placed(g, i + 1, base, buf[cursor[v] - base := u], cursor[v := cursor[v] + 1], w)
  {
    hide Offset, Sources;
    var (u, v) := g.edges[i];
    if w == v {
      SliceExtended(buf, cursor[v] - base, u, Offset(g, w) - base);
    } else {
      SliceKept(buf, cursor[v] - base, u, Offset(g, w) - base, cursor[w] - base);
    }
  }

  lemma SliceKept(buf: seq<nat>, at: nat, u: nat, from: nat, to: nat)
    requires at < |buf| && from <= to <= |buf| && !(from <= at < to)
    ensures buf[at := u][from..to] == buf[from..to]
  {}

  lemma SliceExtended(buf: seq<nat>, at: nat, u: nat, from: nat)
    requires from <= at < |buf|
    ensures buf[at := u][from..at + 1] == buf[from..at] + [u]
  {}

  /** With every edge placed, the buffer is the concatenation and every cursor is at the next node's offset. */
  lemma {:induction false} PlacedIsInto(g: Graph, lo: nat, hi: nat, buf: seq<nat>, cursor: seq<nat>, k: nat)
    requires AllPlaced(g, |g.edges|, lo, hi, buf, cursor) && lo <= k <= hi
    ensures Offset(g, lo) <= Offset(g, k) <= Offset(g, hi) && buf[..Offset(g, k) - Offset(g, lo)] == Into(g, lo, k)
    ensures forall v: nat :: lo <= v < k ==> cursor[v] == Offset(g, v + 1)
    decreases k
  {
    hide Offset;
    OffsetsRise(g, lo, k);
    OffsetsRise(g, k, hi);
    if lo < k {
      var v := k - 1;
      PlacedIsInto(g, lo, hi, buf, cursor, v);
      OffsetInRange(g, lo, hi, v);
      assert Placed(g, |g.edges|, Offset(g, lo), buf, cursor, v);
      assert g.edges[..|g.edges|] == g.edges;
      TwoSlices(buf, Offset(g, v) - Offset(g, lo), Offset(g, k) - Offset(g, lo));
    }
  }

  lemma TwoSlices(buf: seq<nat>, i: nat, j: nat)
    requires i <= j <= |buf|
    ensures buf[..j] == buf[..i] + buf[i..j]
  {}

  /** One bucket: the edges into [lo, hi), each written at its destination's cursor. */
  method PlaceBucket(g: Graph, lo: nat, hi: nat, base: nat, buf: array<nat>, cursor: array<nat>)
    requires lo <= hi <= g.n && cursor.Length == g.n + 1 && base == Offset(g, lo) && base + buf.Length == Offset(g, hi)
    requires forall v: nat :: lo <= v < hi ==> cursor[v] == Offset(g, v)
    requires buf != cursor
    modifies buf, cursor
    ensures buf[..] == Into(g, lo, hi)
    ensures forall v: nat :: v <= g.n ==> cursor[v] == if lo <= v < hi then Offset(g, v + 1) else old(cursor[v])
  {
    hide Offset, AllPlaced, Into;
    NothingPlaced(g, lo, hi, buf[..], cursor[..]);
    for i := 0 to |g.edges|
      invariant AllPlaced(g, i, lo, hi, buf[..], cursor[..])
      invariant forall v: nat :: v <= g.n && !(lo <= v < hi) ==> cursor[v] == old(cursor[v])
    {
      var u: nat, v: nat := g.edges[i].0, g.edges[i].1;
      PlaceOne(g, i, lo, hi, buf[..], cursor[..]);
      if v >= lo && v < hi && u < g.n {
        ghost var buf0, cursor0 := buf[..], cursor[..];
        buf[cursor[v] - base] := u;
        cursor[v] := cursor[v] + 1;
        assert buf[..] == buf0[cursor0[v] - base := u] && cursor[..] == cursor0[v := cursor0[v] + 1];
      }
    }
    PlacedIsInto(g, lo, hi, buf[..], cursor[..], hi);
    assert buf[..Offset(g, hi) - Offset(g, lo)] == buf[..];
  }

  // ---- The three builders ------------------------------------------------------------------------

  method CopyOf(s: seq<nat>) returns (a: array<nat>)
    ensures fresh(a) && a[..] == s
  {
    a := new nat[|s|](i requires 0 <= i < |s| => s[i]);
  }

  /** The direct builder: everything in memory, one bucket holding all nodes. */
  method WriteCsr(g: Graph) returns (file: seq<Byte>)
    ensures file == File(g)
  {
    hide Offset, Into, Encode;
    var inDeg, outDeg := CountDegrees(g.n, g.edges);
    var offsets := PrefixSums(g, inDeg);
    OffsetZero(g);
    var cursor := CopyOf(offsets);
    var nbr := new nat[offsets[g.n]](_ => 0);
    PlaceBucket(g, 0, g.n, 0, nbr, cursor);
    file := Encode(8, [g.n, offsets[g.n]]);
    file := file + Encode(8, offsets);
    file := file + Encode(4, nbr[..]);
    file := file + Encode(4, outDeg);
  }

  lemma OffsetZero(g: Graph)
    ensures Offset(g, 0) == 0 && Into(g, 0, 0) == []
  {}

  lemma SpliceZeros(done: seq<Byte>, k: nat, part: seq<Byte>)
    requires |part| <= k
    ensures Splice(done + Zeros(k), |done|, part) == done + part + Zeros(k - |part|)
    ensures Splice(done + Zeros(k), |done| + (k - |part|), part) == done + Zeros(k - |part|) + part
  {}

  /** The streaming builder: the neighbours are written at random into the zeroed file itself. */
  method WriteCsrStreaming(g: Graph) returns (file: array<Byte>)
    ensures file[..] == File(g)
  {
    hide *;
    var inDeg, outDeg := CountDegrees(g.n, g.edges);
    var offsets := PrefixSums(g, inDeg);
    Sizes(g);
    var m := offsets[g.n];
    var offStart, nbrStart := 16, 16 + (g.n + 1) * 8;
    var degStart := nbrStart + m * 4;
    var total := degStart + g.n * 4;
    file := new Byte[total](_ => 0);
    assert file[..] == [] + Zeros(total) by { ZeroFile(file[..]); }
    ghost var header := Encode(8, [g.n, m]);
    HeaderWords(g.n, m);
    SpliceZeros([], total, Bytes(8, g.n));
    Write(file, 0, Bytes(8, g.n));
    assert [] + Bytes(8, g.n) == Bytes(8, g.n);
    SpliceZeros(Bytes(8, g.n), total - 8, Bytes(8, m));
    Write(file, 8, Bytes(8, m));
    SpliceZeros(header, total - 16, Encode(8, offsets));
    Write(file, offStart, Encode(8, offsets));
    ghost var front := header + Encode(8, offsets);
    SpliceZeros(front, total - nbrStart, Encode(4, outDeg));
    Write(file, degStart, Encode(4, outDeg));
    ZeroWords(4, m);
    var cursor := CopyOf(offsets);
    StreamNeighbours(g, file, nbrStart, cursor, front, Encode(4, outDeg));
    FileParts(g);
  }

  lemma ZeroFile(bs: seq<Byte>)
    requires forall i :: 0 <= i < |bs| ==> bs[i] == 0
    ensures bs == [] + Zeros(|bs|)
  {}

  lemma HeaderWords(n: nat, m: nat)
    ensures Encode(8, [n, m]) == Bytes(8, n) + Bytes(8, m) && |Encode(8, [n, m])| == 16
  {
    assert [n, m][1..] == [m] && [m][1..] == [];
    assert Encode(8, [m]) == Bytes(8, m);
  }

  lemma Sizes(g: Graph)
    ensures |Offsets(g)| == g.n + 1 && Offsets(g)[g.n] == Offset(g, g.n) == |Into(g, 0, g.n)| && |OutDegs(g)| == g.n
    ensures forall v: nat :: v <= g.n ==> Offsets(g)[v] == Offset(g, v)
    ensures |Encode(8, Offsets(g))| == (g.n + 1) * 8 && |Encode(4, OutDegs(g))| == g.n * 4
  {
    hide Encode, Into;
    EncodeSize(8, Offsets(g));
    EncodeSize(4, OutDegs(g));
  }

  lemma FileParts(g: Graph)
    ensures File(g)
         == Encode(8, [g.n, Offset(g, g.n)]) + Encode(8, Offsets(g)) + Encode(4, Into(g, 0, g.n)) + Encode(4, OutDegs(g))
  {}

  /** The second pass: each edge's source is written at its destination's cursor, in the file. */
  method StreamNeighbours(g: Graph, file: array<Byte>, nbrStart: nat, cursor: array<nat>, ghost front: seq<Byte>, ghost back: seq<Byte>)
    requires cursor[..] == Offsets(g) && nbrStart == |front| && file.Length == nbrStart + 4 * Offset(g, g.n) + |back|
    requires file[..] == front + Encode(4, ZeroSeq(Offset(g, g.n))) + back
    modifies file, cursor
    ensures file[..] == front + Encode(4, Into(g, 0, g.n)) + back
  {
    hide Offset, AllPlaced, Into, Encode, Splice, Bytes;
    ghost var nbr: seq<nat> := ZeroSeq(Offset(g, g.n));
    assert |nbr| == Offset(g, g.n);
    OffsetZero(g);
    NothingPlaced(g, 0, g.n, nbr, cursor[..]);
    for i := 0 to |g.edges|
      invariant AllPlaced(g, i, 0, g.n, nbr, cursor[..])
      invariant |nbr| == Offset(g, g.n) && file[..] == front + Encode(4, nbr) + back
    {
      var u: nat, v: nat := g.edges[i].0, g.edges[i].1;
      PlaceOne(g, i, 0, g.n, nbr, cursor[..]);
      if u < g.n && v < g.n {
        ghost var cursor0 := cursor[..];
        SpliceWord(front, 4, nbr, back, cursor[v], u);
        Write(file, nbrStart + 4 * cursor[v], Bytes(4, u));
        nbr := nbr[cursor[v] := u];
        cursor[v] := cursor[v] + 1;
        assert cursor[..] == cursor0[v := cursor0[v] + 1];
      }
    }
    PlacedIsInto(g, 0, g.n, nbr, cursor[..], g.n);
    assert nbr[..Offset(g, g.n)] == nbr;
  }

  /** The nodes before bucket b, of r nodes each. */
  function BucketStart(n: nat, r: nat, b: nat): nat { Min(b * r, n) }

  lemma Buckets(n: nat, k: nat, b: nat)
    requires k > 0 && (n > 0 ==> k <= n)
    ensures var r := (n + k - 1) / k;
      && (b + 1) * r == b * r + r && (n > 0 ==> r > 0)
      && BucketStart(n, r, 0) == 0 && BucketStart(n, r, k) == n
  {
    var r := (n + k - 1) / k;
    assert k * r + (n + k - 1) % k == n + k - 1;
  }

  /** The bucketed builder: one bucket of destinations after the other, so that all writes are sequential. */
  method WriteCsrBucketed(g: Graph, numBuckets: nat) returns (file: seq<Byte>)
    ensures file == File(g)
  {
    hide Offset, Into, Encode, Offsets, OutDegs;
    var buckets := Clamp(numBuckets, 1, Max(g.n, 1));
    var inDeg, outDeg := CountDegrees(g.n, g.edges);
    var offsets := PrefixSums(g, inDeg);
    Sizes(g);
    file := Encode(8, [g.n, offsets[g.n]]);
    file := file + Encode(8, offsets);
    ghost var front := file;
    var range := (g.n + buckets - 1) / buckets;
    var cursor := CopyOf(offsets);
    Buckets(g.n, buckets, 0);
    StartBuckets(g, front);
    for b := 0 to buckets
      invariant cursor.Length == g.n + 1 && fresh(cursor)
      invariant forall v: nat :: BucketStart(g.n, range, b) <= v < g.n ==> cursor[v] == Offset(g, v)
      invariant file == front + Encode(4, Into(g, 0, BucketStart(g.n, range, b)))
    {
      Buckets(g.n, buckets, b);
      var blo, bhi := b * range, Min((b + 1) * range, g.n);
      if blo >= bhi {
        continue;
      }
      var base := offsets[blo];
      OffsetsRise(g, blo, bhi);
      var buf := new nat[offsets[bhi] - base](_ => 0);
      PlaceBucket(g, blo, bhi, base, buf, cursor);
      AppendBucket(g, front, blo, bhi);
      file := file + Encode(4, buf[..]);
    }
    file := file + Encode(4, outDeg);
    FileParts(g);
  }

  lemma StartBuckets(g: Graph, front: seq<Byte>)
    ensures front == front + Encode(4, Into(g, 0, 0))
  {}

  lemma {:induction false} EncodeConcat(k: nat, a: seq<nat>, b: seq<nat>)
    ensures Encode(k, a + b) == Encode(k, a) + Encode(k, b)
  {
    hide Bytes;
    if a == [] {
      assert a + b == b;
    } else {
      var head, tail := a[0], a[1..];
      EncodeConcat(k, tail, b);
      assert (a + b)[0] == head && (a + b)[1..] == tail + b;
      assert Encode(k, a + b) == Bytes(k, head) + Encode(k, tail + b);
    }
  }

  lemma AppendBucket(g: Graph, front: seq<Byte>, lo: nat, hi: nat)
    requires lo <= hi
    ensures front + Encode(4, Into(g, 0, lo)) + Encode(4, Into(g, lo, hi)) == front + Encode(4, Into(g, 0, hi))
  {
    hide Into, Encode;
    IntoSplit(g, 0, lo, hi);
    EncodeConcat(4, Into(g, 0, lo), Into(g, lo, hi));
  }

  // ---- Reading the file back ----------------------------------------------------------------------

  /** A mapped file: node and edge counts from its header, and where its regions start. */
  datatype MmapCsr = MmapCsr(mmap: seq<Byte>, n: nat, m: nat, offStart: nat, nbrStart: nat, degStart: nat) {
    /** The regions lie inside the file. */
    predicate Fits() {
      offStart + (n + 1) * 8 <= |mmap| && nbrStart + m * 4 <= |mmap| && degStart + n * 4 <= |mmap|
    }

    function Offs(): seq<nat>
      requires Fits()
    {
      Decode(8, mmap[offStart..offStart + (n + 1) * 8])
    }

    function Neighbors(): seq<nat>
      requires Fits()
    {
      Decode(4, mmap[nbrStart..nbrStart + m * 4])
    }

    function OutDeg(): seq<nat>
      requires Fits()
    {
      Decode(4, mmap[degStart..degStart + n * 4])
    }

    function InNeighbors(v: nat): seq<nat>
      requires Fits() && v + 1 < |Offs()| && Offs()[v] <= Offs()[v + 1] <= |Neighbors()|
    {
      Neighbors()[Offs()[v]..Offs()[v + 1]]
    }
  }

  function Open(mmap: seq<Byte>): MmapCsr
    requires |mmap| >= 16
  {
    var n, m := Value(mmap[..8]), Value(mmap[8..16]);
    MmapCsr(mmap, n, m, 16, 16 + (n + 1) * 8, 16 + (n + 1) * 8 + m * 4)
  }

  lemma WordSizes()
    ensures Power(4) == 0x1_0000_0000 && Power(8) >= 0x1_0000_0000_0000
  {
    assert Power(2) == 0x1_0000;
    assert Power(4) == 0x1_0000_0000;
    assert Power(6) == 0x1_0000_0000_0000;
    assert Power(8) == 256 * Power(7);
  }

  lemma {:induction false} IntoBounds(g: Graph, hi: nat)
    ensures forall i :: 0 <= i < |Into(g, 0, hi)| ==> Into(g, 0, hi)[i] < g.n
  {
    if hi > 0 {
      IntoBounds(g, hi - 1);
    }
  }

  lemma {:induction false} OutDegBound(n: nat, edges: seq<(nat, nat)>, u: nat)
    ensures OutDeg(n, edges, u) <= |edges|
  {
    if edges != [] {
      OutDegBound(n, edges[..|edges| - 1], u);
    }
  }

  /** One more edge lengthens the concatenation by at most one. */
  lemma {:induction false} IntoGrows(n: nat, edges: seq<(nat, nat)>, e: (nat, nat), hi: nat)
    ensures Offset(Graph(n, edges + [e]), hi) == Offset(Graph(n, edges), hi) + if ValidEdge(n, e) && e.1 < hi then 1 else 0
    decreases hi
  {
    if hi > 0 {
      IntoGrows(n, edges, e, hi - 1);
      var all := edges + [e];
      SourcesStep(n, all, |edges|, hi - 1);
      assert all[..|edges|] == edges && all[..|edges| + 1] == all;
    }
  }

  lemma {:induction false} OffsetBound(g: Graph, hi: nat)
    ensures Offset(g, hi) <= |g.edges|
    decreases |g.edges|
  {
    if g.edges == [] {
      NoEdges(g, hi);
    } else {
      var rest, e := g.edges[..|g.edges| - 1], g.edges[|g.edges| - 1];
      assert g.edges == rest + [e];
      OffsetBound(Graph(g.n, rest), hi);
      IntoGrows(g.n, rest, e, hi);
    }
  }

  lemma {:induction false} NoEdges(g: Graph, hi: nat)
    requires g.edges == []
    ensures Offset(g, hi) == 0
    decreases hi
  {
    if hi > 0 {
      NoEdges(g, hi - 1);
    }
  }

  /** The regions of a file, found from its header. */
  lemma Regions(g: Graph)
    requires g.n < Power(8) && Offset(g, g.n) < Power(8)
    ensures |File(g)| >= 16
    ensures var csr := Open(File(g));
      && csr.n == g.n && csr.m == Offset(g, g.n) && csr.Fits()
      && csr.mmap[csr.offStart..csr.offStart + (csr.n + 1) * 8] == Encode(8, Offsets(g))
      && csr.mmap[csr.nbrStart..csr.nbrStart + csr.m * 4] == Encode(4, Into(g, 0, g.n))
      && csr.mmap[csr.degStart..csr.degStart + csr.n * 4] == Encode(4, OutDegs(g))
  {
    hide Encode, Bytes, Value, Into, Offsets, OutDegs;
    var m := Offset(g, g.n);
    Sizes(g);
    EncodeSize(4, Into(g, 0, g.n));
    HeaderWords(g.n, m);
    WordRoundTrip(8, g.n);
    WordRoundTrip(8, m);
    var file, header, offs, nbrs, degs := File(g), Encode(8, [g.n, m]), Encode(8, Offsets(g)), Encode(4, Into(g, 0, g.n)), Encode(4, OutDegs(g));
    assert file == header + offs + nbrs + degs;
    Parts(file, Bytes(8, g.n), Bytes(8, m), offs, nbrs, degs);
  }

  lemma Parts(file: seq<Byte>, n: seq<Byte>, m: seq<Byte>, offs: seq<Byte>, nbrs: seq<Byte>, degs: seq<Byte>)
    requires file == n + m + offs + nbrs + degs && |n| == |m| == 8
    ensures file[..8] == n && file[8..16] == m && file[16..16 + |offs|] == offs
    ensures file[16 + |offs|..16 + |offs| + |nbrs|] == nbrs
    ensures file[16 + |offs| + |nbrs|..16 + |offs| + |nbrs| + |degs|] == degs
  {}

  ghost predicate WordAt(file: seq<Byte>, at: nat, k: nat, x: nat) {
    at + k <= |file| && file[at..at + k] == Bytes(k, x)
  }

  /** Where everything stands: two words of eight bytes for the counts, the n + 1 offsets in eight bytes each, the
      in-neighbours in four and the out-degrees in four. */
  lemma FileLayout(g: Graph)
    ensures var file, m := File(g), |Into(g, 0, g.n)|;
      && |file| == 16 + 8 * (g.n + 1) + 4 * m + 4 * g.n
      && WordAt(file, 0, 8, g.n) && WordAt(file, 8, 8, m)
      && (forall v: nat :: v <= g.n ==> WordAt(file, 16 + 8 * v, 8, |Into(g, 0, v)|))
      && (forall i: nat :: i < m ==> WordAt(file, 16 + 8 * (g.n + 1) + 4 * i, 4, Into(g, 0, g.n)[i]))
      && forall u: nat :: u < g.n ==> WordAt(file, 16 + 8 * (g.n + 1) + 4 * m + 4 * u, 4, OutDeg(g.n, g.edges, u))
  {
    hide Encode, Bytes, Into, Offsets, OutDegs;
    var m := Offset(g, g.n);
    var header, offs, nbrs, degs := Encode(8, [g.n, m]), Encode(8, Offsets(g)), Encode(4, Into(g, 0, g.n)), Encode(4, OutDegs(g));
    Sizes(g);
    EncodeSize(8, [g.n, m]);
    EncodeSize(8, Offsets(g));
    EncodeSize(4, Into(g, 0, g.n));
    EncodeSize(4, OutDegs(g));
    WordInRegion([], 8, [g.n, m], offs + nbrs + degs, 0);
    WordInRegion([], 8, [g.n, m], offs + nbrs + degs, 1);
    assert File(g) == [] + header + (offs + nbrs + degs);
    assert File(g) == header + offs + (nbrs + degs);
    assert File(g) == (header + offs) + nbrs + degs;
    assert File(g) == (header + offs + nbrs) + degs + [];
    forall v: nat | v <= g.n ensures WordAt(File(g), 16 + 8 * v, 8, |Into(g, 0, v)|) {
      OffsetsAt(g, v);
      WordInRegion(header, 8, Offsets(g), nbrs + degs, v);
    }
    forall i: nat | i < m ensures WordAt(File(g), 16 + 8 * (g.n + 1) + 4 * i, 4, Into(g, 0, g.n)[i]) {
      WordInRegion(header + offs, 4, Into(g, 0, g.n), degs, i);
    }
    forall u: nat | u < g.n ensures WordAt(File(g), 16 + 8 * (g.n + 1) + 4 * m + 4 * u, 4, OutDeg(g.n, g.edges, u)) {
      DegreesAt(g, u);
      WordInRegion(header + offs + nbrs, 4, OutDegs(g), [], u);
    }
  }

  lemma OffsetsAt(g: Graph, v: nat)
    requires v <= g.n
    ensures |Offsets(g)| == g.n + 1 && Offsets(g)[v] == |Into(g, 0, v)|
  {}

  lemma DegreesAt(g: Graph, u: nat)
    requires u < g.n
    ensures |OutDegs(g)| == g.n && OutDegs(g)[u] == OutDeg(g.n, g.edges, u)
  {}

  lemma WordInRegion(before: seq<Byte>, k: nat, ws: seq<nat>, after: seq<Byte>, i: nat)
    requires i < |ws|
    ensures WordAt(before + Encode(k, ws) + after, |before| + k * i, k, ws[i])
  {
    hide Encode, Bytes;
    EncodeAt(k, ws, i);
    var region := Encode(k, ws);
    var file := before + region + after;
    assert file == before + (region + after);
    assert (region + after)[k * i..k * i + k] == region[k * i..k * i + k];
    SliceShift(before, region + after, k * i, k);
  }

  /** Reading a file back gives each node's sources, in input order, and every out-degree. */
  lemma ReadsBack(g: Graph)
    requires g.n <= 0x1_0000_0000 && |g.edges| < 0x1_0000_0000
    ensures |File(g)| >= 16
    ensures var csr := Open(File(g));
      && csr.n == g.n && csr.m == Offset(g, g.n) && csr.Fits()
      && csr.OutDeg() == OutDegs(g) && csr.Offs() == Offsets(g) && csr.Neighbors() == Into(g, 0, g.n)
  {
    hide Encode, Decode, Into, Offsets, OutDegs, Open, Power;
    WordSizes();
    OffsetBound(g, g.n);
    Regions(g);
    IntoBounds(g, g.n);
    DecodeEncode(4, Into(g, 0, g.n));
    OffsetsFit(g);
    DecodeEncode(8, Offsets(g));
    OutDegsFit(g);
    DecodeEncode(4, OutDegs(g));
  }

  lemma OffsetsFit(g: Graph)
    ensures forall i :: 0 <= i < |Offsets(g)| ==> Offsets(g)[i] <= |g.edges|
  {
    forall i: nat | i < |Offsets(g)| ensures Offsets(g)[i] <= |g.edges| {
      OffsetBound(g, i);
    }
  }

  lemma OutDegsFit(g: Graph)
    ensures forall i :: 0 <= i < |OutDegs(g)| ==> OutDegs(g)[i] <= |g.edges|
  {
    forall i: nat | i < |OutDegs(g)| ensures OutDegs(g)[i] <= |g.edges| {
      OutDegBound(g.n, g.edges, i);
    }
  }

  /** The in-neighbours read from the file are the sources of the valid edges into the node, in input order. */
  lemma InNeighborsAreSources(g: Graph, v: nat)
    requires g.n <= 0x1_0000_0000 && |g.edges| < 0x1_0000_0000 && v < g.n
    ensures |File(g)| >= 16
    ensures var csr := Open(File(g));
      csr.Fits() && v + 1 < |csr.Offs()| && csr.Offs()[v] <= csr.Offs()[v + 1] <= |csr.Neighbors()|
      && csr.InNeighbors(v) == Sources(g.n, g.edges, v)
  {
    hide Open, File;
    ReadsBack(g);
    IntoSplit(g, 0, v + 1, g.n);
  }
}
