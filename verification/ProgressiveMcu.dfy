/** decode_mcu of the progressive Huffman decoder, all four kinds of scan: one MCU or nothing, restarts,
    the out-of-data test and the undo included. */
module ProgressiveMcu {
  import opened Wrappers
  import opened Bits
  import opened BitStream
  import opened HuffDecode
  import opened BitSources
  import opened Coefficients
  import opened Zigzag
  import opened Refine
  import opened Progressive

  // ---------------------------------------------------------------- one block

  /** A block of an MCU: its place in the image, its component's number in the scan, and that
      component's table. */
  datatype Cover = Cover(at: nat, ci: nat, tb: Table)

  datatype RawKind =
    | DcFirstScan(al: nat)
    | DcRefineScan(al: nat)
    | AcFirstScan(o: Order, d: Scan)
    | AcRefineScan(o: Order, d: Scan)

  predicate KindOk(k: RawKind) {
    (k.DcFirstScan? || k.DcRefineScan? ==> k.al <= 13) && (k.AcFirstScan? || k.AcRefineScan? ==> k.d.ss >= 1)
  }

  type Kind = k: RawKind | KindOk(k) witness DcFirstScan(0)

  /** The working state: reading state, predictors and end-of-band run. */
  datatype Work<+S> = Work(s: S, last: seq<int>, eobRun: nat)

  /** The blocks as an attempt leaves them, and the working state if it did not run out of input. */
  datatype Attempted<+S> = Attempted(img: seq<Block>, out: Option<Work<S>>)

  function SetDc(b: Block, c: Coefficient): Block {
    b[0 := c]
  }

  function OneBlock<S>(kind: Kind, src: BitSource<S>, w: Work<S>, h: Cover, b: Block): (r: (Block, Option<Work<S>>))
    requires h.ci < |w.last|
    ensures r.1.Some? ==> |r.1.value.last| == |w.last|
  {
    match kind
    case DcFirstScan(al) =>
      (match DcFirst(src, w.s, h.tb, w.last[h.ci], al)
       case None => (b, None)
       case Some((c, l, s1)) => (SetDc(b, c), Some(Work(s1, w.last[h.ci := l], w.eobRun))))
    case DcRefineScan(al) =>
      (match DcRefine(src, w.s, b[0], al)
       case None => (b, None)
       case Some((c, s1)) => (SetDc(b, c), Some(Work(s1, w.last, w.eobRun))))
    case AcFirstScan(o, d) =>
      if w.eobRun > 0 then (b, Some(Work(w.s, w.last, w.eobRun - 1)))
      else
        var r := AcFirstPuts(src, w.s, h.tb, o, d, d.ss);
        (PutAll(r.puts, b), match r.out case None => None case Some((s1, e)) => Some(Work(s1, w.last, e)))
    case AcRefineScan(o, d) =>
      match RefineBlock(src, w.s, h.tb, o, d, b, w.eobRun)
      case Stop(b1) => (Undo(b1, b), None)
      case Done(s1, b1, e) => (b1, Some(Work(s1, w.last, e)))
  }

  // ---------------------------------------------------------------- one MCU, one scan

  predicate Inside(mcu: seq<Cover>, blocks: nat, comps: nat) {
    forall k :: 0 <= k < |mcu| ==> mcu[k].at < blocks && mcu[k].ci < comps
  }

  function EachBlock<S>(kind: Kind, src: BitSource<S>, w: Work<S>, mcu: seq<Cover>, img: seq<Block>): (r: Attempted<S>)
    requires Inside(mcu, |img|, |w.last|)
    ensures |r.img| == |img| && (r.out.Some? ==> |r.out.value.last| == |w.last|)
    decreases |mcu|
  {
    if mcu == [] then Attempted(img, Some(w))
    else
      var h := mcu[0];
      var (b, o) := OneBlock(kind, src, w, h, img[h.at]);
      match o
      case None => Attempted(img[h.at := b], None)
      case Some(w1) => EachBlock(kind, src, w1, mcu[1..], img[h.at := b])
  }

  predicate In(mcu: seq<Cover>, i: nat) {
    exists k :: 0 <= k < |mcu| && mcu[k].at == i
  }

  /** Only blocks of the MCU are touched. */
  lemma {:induction false} EachFrame<S>(kind: Kind, src: BitSource<S>, w: Work<S>, mcu: seq<Cover>, img: seq<Block>,
      i: nat)
    requires Inside(mcu, |img|, |w.last|) && i < |img| && !In(mcu, i)
    ensures EachBlock(kind, src, w, mcu, img).img[i] == img[i]
    decreases |mcu|
  {
    if mcu != [] {
      var h := mcu[0];
      var (b, o) := OneBlock(kind, src, w, h, img[h.at]);
      hide OneBlock;
      if o.Some? {
        forall k | 0 <= k < |mcu[1..]| ensures mcu[1..][k].at != i { assert mcu[k + 1].at != i; }
        EachFrame(kind, src, o.value, mcu[1..], img[h.at := b], i);
      }
    }
  }

  /** Except in DC refinements, an MCU is left alone once the data has run out. */
  function OneMcu<S>(kind: Kind, src: BitSource<S>, over: S -> bool, w: Work<S>, mcu: seq<Cover>,
      img: seq<Block>): (r: Attempted<S>)
    requires Inside(mcu, |img|, |w.last|)
    ensures |r.img| == |img| && (r.out.Some? ==> |r.out.value.last| == |w.last|)
  {
    if !kind.DcRefineScan? && over(w.s) then Attempted(img, Some(w)) else EachBlock(kind, src, w, mcu, img)
  }

  predicate AllInside(mcus: seq<seq<Cover>>, blocks: nat, comps: nat) {
    forall m :: 0 <= m < |mcus| ==> Inside(mcus[m], blocks, comps)
  }

  /** The working state and the image after n MCUs from number m on. */
  function Mcus<S>(kind: Kind, src: BitSource<S>, over: S -> bool, w: Work<S>, mcus: seq<seq<Cover>>, m: nat, n: nat,
      img: seq<Block>)
    : (r: Option<(Work<S>, seq<Block>)>)
    requires AllInside(mcus, |img|, |w.last|) && m + n <= |mcus|
    ensures r.Some? ==> |r.value.0.last| == |w.last| && |r.value.1| == |img|
  {
    if n == 0 then Some((w, img))
    else
      match Mcus(kind, src, over, w, mcus, m, n - 1, img)
      case None => None
      case Some((w1, img1)) =>
        assert Inside(mcus[m + n - 1], |img|, |w.last|);
        var r := OneMcu(kind, src, over, w1, mcus[m + n - 1], img1);
        match r.out
        case None => None
        case Some(w2) => Some((w2, r.img))
  }

  lemma McusSnoc<S>(kind: Kind, src: BitSource<S>, over: S -> bool, w: Work<S>, mcus: seq<seq<Cover>>, m: nat, n: nat,
      img: seq<Block>)
    requires AllInside(mcus, |img|, |w.last|) && m + n <= |mcus| && n > 0
    ensures match Mcus(kind, src, over, w, mcus, m, n - 1, img)
      case None => Mcus(kind, src, over, w, mcus, m, n, img).None?
      case Some((w1, img1)) =>
        && Inside(mcus[m + n - 1], |img1|, |w1.last|)
        && var r := OneMcu(kind, src, over, w1, mcus[m + n - 1], img1);
        Mcus(kind, src, over, w, mcus, m, n, img) == match r.out case None => None case Some(w2) => Some((w2, r.img))
  {
    hide OneMcu;
  }

  // ---------------------------------------------------------------- related sources

  /** The same working state over related reading states. */
  ghost predicate Alike<S(!new), T(!new)>(w: Work<S>, v: Work<T>, rel: (S, T) -> bool) {
    rel(w.s, v.s) && w.last == v.last && w.eobRun == v.eobRun
  }

  /** Whatever the first attempt completes, the second completes alike. */
  ghost predicate Follows<S(!new), T(!new)>(x: Option<Work<S>>, y: Option<Work<T>>, rel: (S, T) -> bool) {
    x.Some? ==> y.Some? && Alike(x.value, y.value, rel)
  }

  lemma AcFirstFollows<S(!new), T(!new)>(a: BitSource<S>, b: BitSource<T>, rel: (S, T) -> bool, s: S, t: T, tb: Table,
      o: Order, d: Scan, blk: Block)
    requires Simulates(a, b, rel) && rel(s, t)
    ensures var x, y := AcFirstPuts(a, s, tb, o, d, d.ss), AcFirstPuts(b, t, tb, o, d, d.ss);
      x.out.Some? ==> y.out.Some? && PutAll(x.puts, blk) == PutAll(y.puts, blk)
                      && rel(x.out.value.0, y.out.value.0) && x.out.value.1 == y.out.value.1
  {
    AcFirstSimulated(a, b, rel, s, t, tb, o, d, blk, d.ss);
    AcFirstIsPuts(a, s, tb, o, d, blk, d.ss);
    AcFirstIsPuts(b, t, tb, o, d, blk, d.ss);
    hide AcFirst, AcFirstPuts, PutAll, Simulates;
  }

  lemma BlockFollows<S(!new), T(!new)>(kind: Kind, a: BitSource<S>, b: BitSource<T>, rel: (S, T) -> bool, w: Work<S>,
      v: Work<T>, h: Cover, blk: Block)
    requires Simulates(a, b, rel) && Alike(w, v, rel) && h.ci < |w.last|
    ensures var x, y := OneBlock(kind, a, w, h, blk), OneBlock(kind, b, v, h, blk);
      Follows(x.1, y.1, rel) && (x.1.Some? ==> x.0 == y.0)
  {
    match kind
    case DcFirstScan(al) => DcFirstSimulated(a, b, rel, w.s, v.s, h.tb, w.last[h.ci], al);
    case DcRefineScan(al) => DcRefineSimulated(a, b, rel, w.s, v.s, blk[0], al);
    case AcFirstScan(o, d) => if w.eobRun == 0 { AcFirstFollows(a, b, rel, w.s, v.s, h.tb, o, d, blk); }
    case AcRefineScan(o, d) => RunSimulated(a, b, rel, w.s, v.s, h.tb, o, d, blk, d.ss,
        if w.eobRun > 0 then Tail(w.eobRun) else Fetch);
  }

  lemma {:induction false} EachFollows<S(!new), T(!new)>(kind: Kind, a: BitSource<S>, b: BitSource<T>,
      rel: (S, T) -> bool, w: Work<S>, v: Work<T>, mcu: seq<Cover>, img: seq<Block>)
    requires Simulates(a, b, rel) && Alike(w, v, rel) && Inside(mcu, |img|, |w.last|)
    ensures var x, y := EachBlock(kind, a, w, mcu, img), EachBlock(kind, b, v, mcu, img);
      Follows(x.out, y.out, rel) && (x.out.Some? ==> x.img == y.img)
    decreases |mcu|
  {
    hide OneBlock, Simulates;
    if mcu != [] {
      var h := mcu[0];
      BlockFollows(kind, a, b, rel, w, v, h, img[h.at]);
      var x, y := OneBlock(kind, a, w, h, img[h.at]), OneBlock(kind, b, v, h, img[h.at]);
      if x.1.Some? {
        EachFollows(kind, a, b, rel, x.1.value, y.1.value, mcu[1..], img[h.at := x.0]);
      }
    }
  }

  /** Related states are over or not over together. */
  ghost predicate Agree<S(!new), T(!new)>(f: S -> bool, g: T -> bool, rel: (S, T) -> bool) {
    forall s: S, t: T :: rel(s, t) ==> f(s) == g(t)
  }

  lemma OneMcuFollows<S(!new), T(!new)>(kind: Kind, a: BitSource<S>, b: BitSource<T>, f: S -> bool, g: T -> bool,
      rel: (S, T) -> bool, w: Work<S>, v: Work<T>, mcu: seq<Cover>, img: seq<Block>)
    requires Simulates(a, b, rel) && Agree(f, g, rel) && Alike(w, v, rel) && Inside(mcu, |img|, |w.last|)
    ensures var x, y := OneMcu(kind, a, f, w, mcu, img), OneMcu(kind, b, g, v, mcu, img);
      Follows(x.out, y.out, rel) && (x.out.Some? ==> x.img == y.img)
  {
    assert f(w.s) == g(v.s);
    EachFollows(kind, a, b, rel, w, v, mcu, img);
    hide EachBlock, Simulates;
  }

  lemma {:induction false} McusFollow<S(!new), T(!new)>(kind: Kind, a: BitSource<S>, b: BitSource<T>, f: S -> bool,
      g: T -> bool, rel: (S, T) -> bool, w: Work<S>, v: Work<T>, mcus: seq<seq<Cover>>, m: nat, n: nat, img: seq<Block>)
    requires Simulates(a, b, rel) && Agree(f, g, rel) && Alike(w, v, rel) && AllInside(mcus, |img|, |w.last|)
        && m + n <= |mcus|
    ensures var x, y := Mcus(kind, a, f, w, mcus, m, n, img), Mcus(kind, b, g, v, mcus, m, n, img);
      x.Some? ==> y.Some? && x.value.1 == y.value.1 && Alike(x.value.0, y.value.0, rel)
  {
    if n > 0 {
      McusFollow(kind, a, b, f, g, rel, w, v, mcus, m, n - 1, img);
      var x, y := Mcus(kind, a, f, w, mcus, m, n - 1, img), Mcus(kind, b, g, v, mcus, m, n - 1, img);
      hide OneMcu, Simulates, Agree;
      if x.Some? {
        assert Inside(mcus[m + n - 1], |img|, |w.last|);
        OneMcuFollows(kind, a, b, f, g, rel, x.value.0, y.value.0, mcus[m + n - 1], x.value.1);
      }
    }
  }

  // ---------------------------------------------------------------- finishing

  lemma BlockCompletes<S(!new)>(kind: Kind, src: BitSource<S>, live: S -> bool, w: Work<S>, h: Cover, b: Block)
    requires NeverDry(src, live) && live(w.s) && h.ci < |w.last| && (kind.DcFirstScan? ==> ForDc(h.tb))
    ensures var r := OneBlock(kind, src, w, h, b); r.1.Some? && live(r.1.value.s)
  {
    match kind
    case DcFirstScan(al) =>
      var d := DecodeDiff(src, w.s, h.tb);
      assert d.Some? && live(d.value.1);
    case DcRefineScan(al) => assert src.receive(w.s, 1).Some? && live(src.receive(w.s, 1).value.1);
    case AcFirstScan(o, d) =>
      AcFirstCompletes(src, live, w.s, h.tb, o, d, b, d.ss);
      AcFirstIsPuts(src, w.s, h.tb, o, d, b, d.ss);
    case AcRefineScan(o, d) => RunCompletes(src, live, w.s, h.tb, o, d, b, d.ss,
        if w.eobRun > 0 then Tail(w.eobRun) else Fetch);
  }

  ghost predicate TablesFit(kind: Kind, mcu: seq<Cover>) {
    kind.DcFirstScan? ==> forall k :: 0 <= k < |mcu| ==> ForDc(mcu[k].tb)
  }

  lemma {:induction false} EachCompletes<S(!new)>(kind: Kind, src: BitSource<S>, live: S -> bool, w: Work<S>,
      mcu: seq<Cover>, img: seq<Block>)
    requires NeverDry(src, live) && live(w.s) && Inside(mcu, |img|, |w.last|) && TablesFit(kind, mcu)
    ensures var r := EachBlock(kind, src, w, mcu, img); r.out.Some? && live(r.out.value.s)
    decreases |mcu|
  {
    if mcu != [] {
      var h := mcu[0];
      BlockCompletes(kind, src, live, w, h, img[h.at]);
      var r := OneBlock(kind, src, w, h, img[h.at]);
      hide OneBlock, NeverDry, ForDc;
      EachCompletes(kind, src, live, r.1.value, mcu[1..], img[h.at := r.0]);
    }
  }

  lemma OneMcuCompletes<S(!new)>(kind: Kind, src: BitSource<S>, live: S -> bool, over: S -> bool, w: Work<S>,
      mcu: seq<Cover>, img: seq<Block>)
    requires NeverDry(src, live) && live(w.s) && Inside(mcu, |img|, |w.last|) && TablesFit(kind, mcu)
    ensures var r := OneMcu(kind, src, over, w, mcu, img); r.out.Some? && live(r.out.value.s)
  {
    EachCompletes(kind, src, live, w, mcu, img);
    hide EachBlock, NeverDry, TablesFit;
  }

  /** From a source that does not run dry no MCU suspends. */
  lemma {:induction false} McusComplete<S(!new)>(kind: Kind, src: BitSource<S>, live: S -> bool, over: S -> bool,
      w: Work<S>, mcus: seq<seq<Cover>>, m: nat, n: nat, img: seq<Block>)
    requires NeverDry(src, live) && live(w.s) && AllInside(mcus, |img|, |w.last|) && m + n <= |mcus|
    requires forall i :: 0 <= i < |mcus| ==> TablesFit(kind, mcus[i])
    ensures var r := Mcus(kind, src, over, w, mcus, m, n, img); r.Some? && live(r.value.0.s)
  {
    if n > 0 {
      McusComplete(kind, src, live, over, w, mcus, m, n - 1, img);
      var r := Mcus(kind, src, over, w, mcus, m, n - 1, img).value;
      assert Inside(mcus[m + n - 1], |img|, |w.last|) && TablesFit(kind, mcus[m + n - 1]);
      hide OneMcu, NeverDry, TablesFit;
      OneMcuCompletes(kind, src, live, over, r.0, mcus[m + n - 1], r.1);
    }
  }

  /** Once over, everything is left as it is. */
  lemma {:induction false} OverLeavesAlone<S>(kind: Kind, src: BitSource<S>, over: S -> bool, w: Work<S>,
      mcus: seq<seq<Cover>>, m: nat, n: nat, img: seq<Block>)
    requires AllInside(mcus, |img|, |w.last|) && m + n <= |mcus| && !kind.DcRefineScan? && over(w.s)
    ensures Mcus(kind, src, over, w, mcus, m, n, img) == Some((w, img))
  {
    if n > 0 { OverLeavesAlone(kind, src, over, w, mcus, m, n - 1, img); }
  }
}
