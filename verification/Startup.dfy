/** The start of the web proxy: the bounds it checks on its parameters, and the segments,
    semaphores and status array it sets up, as the initial state of the protocol. */
module Startup {
  import opened Wrappers
  import opened Segment
  import SegmentPool
  import Protocol
  import Text

  /** A segment as the protocol sees it. */
  ghost function SegOf(g: SharedSegment): Protocol.Seg
    reads g, g.mem
  {
    Protocol.Seg(g.writer, g.reader, g.mem[..])
  }

  ghost predicate Fresh(g: Protocol.Seg, segsize: nat) {
    g.writer == 1 && g.reader == 0 && |g.mem| == segsize
  }

  /** The shared structure that every worker gets. */
  class SharedInfo {
    const nthread: nat
    const segsize: nat
    const pool: SegmentPool.Pool
    const segs: array<SharedSegment>

    ghost function Footprint(): set<object>
      reads segs
    {
      {segs, pool, pool.status}
      + (set k | 0 <= k < segs.Length :: segs[k] as object)
      + (set k | 0 <= k < segs.Length :: segs[k].mem as object)
    }

    /** Everything in its initial condition, and no two segments the same. */
    ghost predicate SetUp(nthread: nat, nseg: nat, segsize: nat)
      reads segs, Footprint()
    {
      && this.nthread == nthread && this.segsize == segsize && segs.Length == nseg
      && pool.status[..] == SegmentPool.Initial(nseg)
      && (forall k :: 0 <= k < nseg ==> Fresh(SegOf(segs[k]), segsize))
      && (forall k, l :: 0 <= k < l < nseg ==> segs[k] != segs[l])
    }

    constructor (nthread: nat, nseg: nat, segsize: nat)
      ensures SetUp(nthread, nseg, segsize)
    {
      var p := new SegmentPool.Pool(nseg);
      var first := new SharedSegment(segsize);
      var a := new SharedSegment[nseg](_ => first);
      for i := 0 to nseg
        invariant fresh(a) && p.status[..] == SegmentPool.Initial(nseg)
        invariant forall k :: 0 <= k < i ==> Fresh(SegOf(a[k]), segsize)
        invariant forall k, l :: 0 <= k < l < i ==> a[k] != a[l]
      {
        a[i] := new SharedSegment(segsize);
      }
      this.nthread, this.segsize, pool, segs := nthread, segsize, p, a;
    }

    /** The state in which the workers find it, with `n` requests still to come, and the daemon's
        request buffer holding whatever it does. */
    ghost function StateOf(n: nat, buffer: string): Protocol.State
      reads segs, Footprint()
    {
      Protocol.State(
        seq(n, _ => Protocol.NewTransfer()), 0, 0, pool.status[..],
        seq(segs.Length, k requires 0 <= k < segs.Length reads segs, Footprint() => SegOf(segs[k])), map[],
        buffer)
    }

    /** It is an initial state of the protocol, for any cache and any requests. */
    lemma StartsProtocol(cfg: Protocol.Config, buffer: string)
      requires SetUp(cfg.nthread, cfg.nseg, cfg.segsize) && Protocol.HasRoom(cfg, buffer)
      ensures var s := StateOf(|cfg.paths|, buffer); Protocol.Init(cfg, s) && Protocol.Reachable(cfg, s)
    {
      var s := StateOf(|cfg.paths|, buffer);
      forall k | 0 <= k < cfg.nseg ensures Protocol.FreshSeg(cfg, s.segs[k]) {
        assert Fresh(SegOf(segs[k]), segsize);
      }
      var actions: seq<Protocol.Action> := [];
      assert Protocol.Run(cfg, [s], actions) && [s][|actions|] == s;
    }
  }

  /** The parameters as `atoi` reads them. */
  datatype Args = Args(server: Option<string>, segsize: int, nsegments: int, port: int, nworkers: int)

  predicate IsInt(n: int) { -Text.INT_LIMIT <= n < Text.INT_LIMIT }

  predicate AreInts(a: Args) { IsInt(a.segsize) && IsInt(a.nsegments) && IsInt(a.port) && IsInt(a.nworkers) }

  /** The conversions to `unsigned short`, `unsigned int` and `size_t`. */
  function Short(n: int): nat { n % 0x1_0000 }

  function Unsigned(n: int): nat { n % 0x1_0000_0000 }

  /** The checks of `main`. All of its variables are unsigned: it refuses small numbers, but a
      negative segment size or count has become a large one by then, and ports and thread numbers
      count modulo 65536. */
  method Start(a: Args) returns (info: SharedInfo?)
    requires AreInts(a)
    ensures info != null <==>
      && a.server.Some? && (a.segsize < 0 || a.segsize >= 128) && a.nsegments != 0
      && a.port % 65536 >= 1024 && 1 <= a.nworkers % 65536 <= 1024
    ensures info != null ==>
      var nsegments := if a.nsegments < 0 then a.nsegments + 0x1_0000_0000 else a.nsegments;
      var segsize := if a.segsize < 0 then a.segsize + 0x1_0000_0000_0000_0000 else a.segsize;
      info.SetUp(a.nworkers % 65536, nsegments, segsize)
    ensures a.server.Some? && a.segsize >= 128 && a.nsegments >= 1 && 1024 <= a.port < 65536 && 1 <= a.nworkers <= 1024
      ==> info != null && info.SetUp(a.nworkers, a.nsegments, a.segsize)
    ensures a.server == None || 0 <= a.segsize < 128 || a.nsegments == 0 ==> info == null
    ensures 0 <= a.port < 1024 || a.nworkers == 0 || 1024 < a.nworkers < 65536 ==> info == null
  {
    var segsize, nsegments := Protocol.ToSize(a.segsize), Unsigned(a.nsegments);
    var port, nworkers := Short(a.port), Short(a.nworkers);
    if a.server == None || segsize < MIN_SEGSIZE || nsegments < 1 || port < 1024 || nworkers < 1 || nworkers > 1024 {
      return null;
    }
    info := new SharedInfo(nworkers, nsegments, segsize);
  }
}
