/**
 * The block-device pipeline of a session, read by any number of threads at once: the page cache
 * (`read_cache_block_device.hpp`) over the read-ahead window (`read_ahead_block_device.hpp`) over
 * the instrumentation (`instrumented_block_device.hpp`) over an immutable device that may fail.
 * Every lock section, every compare-exchange and every device access is one step of its thread;
 * neighbouring additions to counters that no branch reads are one step together.
 */
module CacheStack {
  import opened Bytes

  const PAGE_SIZE: nat := 4096
  const DIRECT_READ_THRESHOLD: nat := 1024
  const MAX_PAGES: nat := 4096
  const TRIGGER_BYTES: nat := 32 * 1024
  const LOOK_AHEAD_BYTES: nat := 256 * 1024

  /** The device: its bytes, and whether it succeeds on every request inside them. */
  datatype Source = Source(bytes: seq<Byte>, reliable: bool)

  datatype Result = Fail | Data(bytes: seq<Byte>)

  predicate InRange(src: Source, off: nat, len: nat) {
    off + len <= |src.bytes|
  }

  function Slice(src: Source, off: nat, len: nat): (r: seq<Byte>)
    requires InRange(src, off, len)
    ensures |r| == len
  {
    src.bytes[off..off + len]
  }

  // ---- the three layers' shared state; `calls` counts the in-range, non-empty reads a layer was asked for ----

  datatype Cache = Cache(pages: map<nat, seq<Byte>>, calls: nat, hits: nat, misses: nat, evictions: nat,
                         bypassReads: nat)

  datatype Request = Request(off: nat, len: nat)

  datatype Ahead = Ahead(
    window: seq<Byte>, start: nat, served: nat, hasLast: bool, lastEnd: nat,
    calls: nat, hits: nat, misses: nat, prefetches: nat, prefetched: nat, servedFromWindow: nat, wasted: nat)

  /** `obtained` and `lengths` collect every in-flight value and request length readers have seen. */
  datatype Meter = Meter(
    calls: nat, readCalls: nat, failedReads: nat, largest: nat, inFlight: nat, maxInFlight: nat,
    obtained: set<nat>, lengths: set<nat>)

  // ---- one thread's call stack ----

  datatype CachePc =
    | CBypass | CBypassCall | CBypassWait
    | CLookup | CMiss | CFillCall | CFillWait | CInsert(page: seq<Byte>)

  datatype AheadPc =
    | ALookup | AMiss
    | ASmallCall | ASmallWait | AReset(data: seq<Byte>)
    | ASeqCheck
    | ALargeCall | ALargeWait | AObserve(data: seq<Byte>)
    | APrefetchCall | APrefetchWait
    | ACountPrefetch(loaded: seq<Byte>) | ACountBytes(loaded: seq<Byte>) | AInstall(loaded: seq<Byte>)

  datatype MeterPc =
    | MCount
    | MLargestLoad | MLargestCas(observed: nat)
    | MEnter | MMaxLoad(active: nat) | MMaxCas(active: nat, observed: nat)
    | MDevice | MLeave(result: Result)

  datatype CacheFrame = CacheFrame(off: nat, len: nat, pc: CachePc)
  datatype AheadFrame = AheadFrame(off: nat, len: nat, pc: AheadPc)
  datatype MeterFrame = MeterFrame(off: nat, len: nat, pc: MeterPc)

  datatype Thread =
    | Idle
    | InCache(c: CacheFrame)
    | InAhead(c: CacheFrame, a: AheadFrame)
    | InMeter(c: CacheFrame, a: AheadFrame, m: MeterFrame)
    | Done(off: nat, len: nat, result: Result)

  datatype State = State(cache: Cache, ahead: Ahead, meter: Meter, threads: seq<Thread>)

  /** What the environment decides: device failure, spurious compare-exchange failure, eviction victim. */
  datatype Choice = Choice(fail: bool, spurious: bool, victim: nat)

  // ---- the page cache ----

  function PageStart(off: nat): nat {
    off - off % PAGE_SIZE
  }

  function PageIndex(off: nat): nat {
    PageStart(off) / PAGE_SIZE
  }

  /** How many bytes of the page at `start` exist on the device. */
  function PageValid(src: Source, start: nat): nat
    requires start <= |src.bytes|
  {
    Min(PAGE_SIZE, |src.bytes| - start)
  }

  predicate GoesDirect(off: nat, len: nat)
    requires len > 0
  {
    len >= DIRECT_READ_THRESHOLD || (off + len - 1) / PAGE_SIZE != PageStart(off) / PAGE_SIZE
  }

  /** A read call arrives. */
  function BeginRead(src: Source, off: nat, len: nat): Thread {
    if off > |src.bytes| || len > |src.bytes| - off then Done(off, len, Fail)
    else if len == 0 then Done(off, len, Data([]))
    else InCache(CacheFrame(off, len, if GoesDirect(off, len) then CBypass else CLookup))
  }

  function CacheMove(src: Source, sh: Cache, c: CacheFrame, victim: nat): (r: (Cache, Thread))
    requires PageStart(c.off) <= |src.bytes|
  {
    match c.pc
    case CBypass => (sh.(bypassReads := sh.bypassReads + 1), InCache(c.(pc := CBypassCall)))
    case CBypassCall => (sh, InAhead(c.(pc := CBypassWait), AheadFrame(c.off, c.len, ALookup)))
    case CLookup =>
      var inPage := c.off - PageStart(c.off);
      if PageIndex(c.off) in sh.pages && inPage + c.len <= |sh.pages[PageIndex(c.off)]| then
        (sh.(hits := sh.hits + 1),
         Done(c.off, c.len, Data(sh.pages[PageIndex(c.off)][inPage..inPage + c.len])))
      else (sh, InCache(c.(pc := CMiss)))
    case CMiss => (sh.(misses := sh.misses + 1), InCache(c.(pc := CFillCall)))
    case CFillCall =>
      (sh, InAhead(c.(pc := CFillWait), AheadFrame(PageStart(c.off), PageValid(src, PageStart(c.off)), ALookup)))
    case CInsert(page) =>
      var full := PageIndex(c.off) !in sh.pages && |sh.pages| >= MAX_PAGES && sh.pages != map[];
      var kept := if full then sh.pages - {victim} else sh.pages;
      var inPage := c.off - PageStart(c.off);
      (sh.(pages := kept[PageIndex(c.off) := page], evictions := sh.evictions + (if full then 1 else 0)),
       Done(c.off, c.len, if inPage + c.len <= |page| then Data(page[inPage..inPage + c.len]) else Fail))
    case _ => (sh, InCache(c))
  }

  /** The inner read of the cache layer has returned. */
  function CacheResume(c: CacheFrame, result: Result): Thread {
    match result
    case Fail => Done(c.off, c.len, Fail)
    case Data(bytes) =>
      if c.pc == CBypassWait then Done(c.off, c.len, result)
      else if c.off - PageStart(c.off) + c.len > |bytes| then Done(c.off, c.len, Fail)
      else InCache(c.(pc := CInsert(bytes)))
  }

  // ---- the read-ahead window ----

  function Observe(sh: Ahead, off: nat, len: nat): Ahead {
    sh.(hasLast := true, lastEnd := off + len)
  }

  function ResetSequence(sh: Ahead): Ahead {
    sh.(hasLast := false, lastEnd := 0)
  }

  /** Bytes of the live window nobody has been served yet. */
  function Unserved(sh: Ahead): nat {
    |sh.window| - Min(sh.served, |sh.window|)
  }

  function AccountOldWindow(sh: Ahead): Ahead {
    sh.(wasted := sh.wasted + Unserved(sh))
  }

  /** How much a prefetch starting at `off` asks the device for. */
  function PrefetchTotal(src: Source, off: nat, len: nat): nat
    requires off <= |src.bytes|
  {
    Min(|src.bytes| - off, len + LOOK_AHEAD_BYTES)
  }

  predicate WindowHolds(sh: Ahead, off: nat, len: nat) {
    && sh.window != [] && off >= sh.start
    && off - sh.start <= |sh.window| && len <= |sh.window| - (off - sh.start)
  }

  function AheadMove(src: Source, sh: Ahead, c: CacheFrame, a: AheadFrame): (r: (Ahead, Thread))
    requires a.off <= |src.bytes|
  {
    match a.pc
    case ALookup =>
      if WindowHolds(sh, a.off, a.len) then
        var relative := a.off - sh.start;
        (Observe(sh.(hits := sh.hits + 1, servedFromWindow := sh.servedFromWindow + a.len, served := sh.served + a.len),
                 a.off, a.len),
         CacheResume(c, Data(sh.window[relative..relative + a.len])))
      else (sh, InAhead(c, a.(pc := AMiss)))
    case AMiss =>
      (sh.(misses := sh.misses + 1), InAhead(c, a.(pc := if a.len < TRIGGER_BYTES then ASmallCall else ASeqCheck)))
    case ASmallCall => (sh, InMeter(c, a.(pc := ASmallWait), MeterFrame(a.off, a.len, MCount)))
    case AReset(data) => (ResetSequence(sh), CacheResume(c, Data(data)))
    case ASeqCheck =>
      (sh, InAhead(c, a.(pc := if sh.hasLast && a.off == sh.lastEnd then APrefetchCall else ALargeCall)))
    case ALargeCall => (sh, InMeter(c, a.(pc := ALargeWait), MeterFrame(a.off, a.len, MCount)))
    case AObserve(data) => (Observe(sh, a.off, a.len), CacheResume(c, Data(data)))
    case APrefetchCall =>
      (sh, InMeter(c, a.(pc := APrefetchWait), MeterFrame(a.off, PrefetchTotal(src, a.off, a.len), MCount)))
    case ACountPrefetch(loaded) => (sh.(prefetches := sh.prefetches + 1), InAhead(c, a.(pc := ACountBytes(loaded))))
    case ACountBytes(loaded) =>
      (sh.(prefetched := sh.prefetched + (if |loaded| >= a.len then |loaded| - a.len else 0)),
       InAhead(c, a.(pc := AInstall(loaded))))
    case AInstall(loaded) =>
      (Observe(AccountOldWindow(sh).(start := a.off, window := loaded, served := a.len), a.off, a.len),
       CacheResume(c, if a.len <= |loaded| then Data(loaded[..a.len]) else Fail))
    case _ => (sh, InAhead(c, a))
  }

  /** The inner read of the read-ahead layer has returned. */
  function AheadResume(c: CacheFrame, a: AheadFrame, result: Result): Thread {
    match result
    case Fail => CacheResume(c, Fail)
    case Data(bytes) =>
      match a.pc
      case ASmallWait => InAhead(c, a.(pc := AReset(bytes)))
      case ALargeWait => InAhead(c, a.(pc := AObserve(bytes)))
      case _ => InAhead(c, a.(pc := ACountPrefetch(bytes)))
  }

  function ClearAhead(sh: Ahead): Ahead {
    ResetSequence(AccountOldWindow(sh).(window := [], start := 0, served := 0))
  }

  // ---- the instrumentation ----

  function MeterMove(src: Source, sh: Meter, c: CacheFrame, a: AheadFrame, m: MeterFrame,
                     choice: Choice): (r: (Meter, Thread))
    requires InRange(src, m.off, m.len)
  {
    match m.pc
    case MCount =>
      (sh.(readCalls := sh.readCalls + 1, lengths := sh.lengths + {m.len}), InMeter(c, a, m.(pc := MLargestLoad)))
    case MLargestLoad => (sh, InMeter(c, a, m.(pc := MLargestCas(sh.largest))))
    case MLargestCas(observed) =>
      if observed >= m.len then (sh, InMeter(c, a, m.(pc := MEnter)))
      else if sh.largest == observed && !choice.spurious then (sh.(largest := m.len), InMeter(c, a, m.(pc := MEnter)))
      else (sh, InMeter(c, a, m.(pc := MLargestCas(sh.largest))))
    case MEnter =>
      var active := sh.inFlight + 1;
      (sh.(inFlight := active, obtained := sh.obtained + {active}), InMeter(c, a, m.(pc := MMaxLoad(active))))
    case MMaxLoad(active) => (sh, InMeter(c, a, m.(pc := MMaxCas(active, sh.maxInFlight))))
    case MMaxCas(active, observed) =>
      if observed >= active then (sh, InMeter(c, a, m.(pc := MDevice)))
      else if sh.maxInFlight == observed && !choice.spurious then
        (sh.(maxInFlight := active), InMeter(c, a, m.(pc := MDevice)))
      else (sh, InMeter(c, a, m.(pc := MMaxCas(active, sh.maxInFlight))))
    case MDevice =>
      var result := if choice.fail && !src.reliable then Fail else Data(Slice(src, m.off, m.len));
      (sh, InMeter(c, a, m.(pc := MLeave(result))))
    case MLeave(result) =>
      (sh.(inFlight := if sh.inFlight > 0 then sh.inFlight - 1 else 0,
           failedReads := sh.failedReads + (if result == Fail then 1 else 0)),
       AheadResume(c, a, result))
  }

  // ---- the whole system ----

  datatype Action =
    | Begin(thread: nat, off: nat, len: nat)
    | Move(thread: nat, choice: Choice)
    | ClearPages
    | ClearWindow

  /** What a thread in the middle of a call may rely on; see `ThreadOk`. */
  predicate CanMove(src: Source, t: Thread) {
    match t
    case InCache(c) => PageStart(c.off) <= |src.bytes|
    case InAhead(_, a) => a.off <= |src.bytes|
    case InMeter(_, _, m) => InRange(src, m.off, m.len)
    case _ => false
  }

  predicate Enabled(src: Source, s: State, act: Action) {
    match act
    case Begin(t, _, _) => t < |s.threads| && (s.threads[t].Idle? || s.threads[t].Done?)
    case Move(t, choice) =>
      && t < |s.threads| && CanMove(src, s.threads[t])
      && (s.threads[t].InCache? && s.threads[t].c.pc.CInsert? && s.cache.pages != map[] ==>
            choice.victim in s.cache.pages)
    case _ => true
  }

  /** The state after thread `t` becomes `t'`, counting the calls it makes into the next layer. */
  function WithThread(s: State, t: nat, t': Thread): State
    requires t < |s.threads|
  {
    var was := s.threads[t];
    s.(threads := s.threads[t := t'],
       cache := if (was.Idle? || was.Done?) && t'.InCache? then s.cache.(calls := s.cache.calls + 1) else s.cache,
       ahead := if was.InCache? && t'.InAhead? then s.ahead.(calls := s.ahead.calls + 1) else s.ahead,
       meter := if was.InAhead? && t'.InMeter? then s.meter.(calls := s.meter.calls + 1) else s.meter)
  }

  function Apply(src: Source, s: State, act: Action): State
    requires Enabled(src, s, act)
  {
    match act
    case Begin(t, off, len) => WithThread(s, t, BeginRead(src, off, len))
    case Move(t, choice) =>
      (match s.threads[t]
       case InCache(c) =>
         var r := CacheMove(src, s.cache, c, choice.victim);
         WithThread(s.(cache := r.0), t, r.1)
       case InAhead(c, a) =>
         var r := AheadMove(src, s.ahead, c, a);
         WithThread(s.(ahead := r.0), t, r.1)
       case InMeter(c, a, m) =>
         var r := MeterMove(src, s.meter, c, a, m, choice);
         WithThread(s.(meter := r.0), t, r.1)
       case _ => s)
    case ClearPages => s.(cache := s.cache.(pages := map[]))
    case ClearWindow => s.(ahead := ClearAhead(s.ahead))
  }

  function InitState(n: nat): State {
    State(
      Cache(map[], 0, 0, 0, 0, 0),
      Ahead([], 0, 0, false, 0, 0, 0, 0, 0, 0, 0, 0),
      Meter(0, 0, 0, 0, 0, 0, {}, {}),
      seq(n, _ => Idle))
  }

  /** The state after an interleaving of `n` threads' reads and clears, if each action was possible. */
  function After(src: Source, n: nat, acts: seq<Action>): Option<State> {
    if acts == [] then Some(InitState(n))
    else
      match After(src, n, acts[..|acts| - 1])
      case None => None
      case Some(s) => if Enabled(src, s, acts[|acts| - 1]) then Some(Apply(src, s, acts[|acts| - 1])) else None
  }

  // ---- data: what every thread and every buffer holds is a slice of the device ----

  predicate IsSlice(src: Source, off: nat, len: nat, data: seq<Byte>) {
    InRange(src, off, len) && data == Slice(src, off, len)
  }

  /** The request the cache layer passes on: the caller's own, or the page around it. */
  function CacheInner(src: Source, c: CacheFrame): Request
    requires PageStart(c.off) <= |src.bytes|
  {
    if c.pc == CBypassWait then Request(c.off, c.len) else Request(PageStart(c.off), PageValid(src, PageStart(c.off)))
  }

  predicate CacheFrameOk(src: Source, c: CacheFrame) {
    && c.len > 0 && InRange(src, c.off, c.len)
    && (c.pc in {CBypass, CBypassCall, CBypassWait} <==> GoesDirect(c.off, c.len))
    && (c.pc.CInsert? ==> IsSlice(src, PageStart(c.off), PageValid(src, PageStart(c.off)), c.pc.page))
  }

  function AheadInner(src: Source, a: AheadFrame): Request
    requires a.off <= |src.bytes|
  {
    Request(a.off, if a.pc == APrefetchWait then PrefetchTotal(src, a.off, a.len) else a.len)
  }

  predicate AheadFrameOk(src: Source, a: AheadFrame) {
    && a.len > 0 && InRange(src, a.off, a.len)
    && (match a.pc
        case AReset(data) => IsSlice(src, a.off, a.len, data)
        case AObserve(data) => IsSlice(src, a.off, a.len, data) && a.len >= TRIGGER_BYTES
        case ALargeCall => a.len >= TRIGGER_BYTES
        case ALargeWait => a.len >= TRIGGER_BYTES
        case ASeqCheck => a.len >= TRIGGER_BYTES
        case APrefetchCall => a.len >= TRIGGER_BYTES
        case APrefetchWait => a.len >= TRIGGER_BYTES
        case ACountPrefetch(loaded) =>
          IsSlice(src, a.off, PrefetchTotal(src, a.off, a.len), loaded) && a.len >= TRIGGER_BYTES
        case ACountBytes(loaded) =>
          IsSlice(src, a.off, PrefetchTotal(src, a.off, a.len), loaded) && a.len >= TRIGGER_BYTES
        case AInstall(loaded) => IsSlice(src, a.off, PrefetchTotal(src, a.off, a.len), loaded) && a.len >= TRIGGER_BYTES
        case _ => true)
  }

  predicate ResultOk(src: Source, off: nat, len: nat, result: Result) {
    match result
    case Data(bytes) => IsSlice(src, off, len, bytes)
    case Fail => !(src.reliable && InRange(src, off, len))
  }

  predicate ThreadOk(src: Source, t: Thread) {
    match t
    case Idle => true
    case Done(off, len, result) => ResultOk(src, off, len, result)
    case InCache(c) => CacheFrameOk(src, c) && c.pc != CBypassWait && c.pc != CFillWait
    case InAhead(c, a) =>
      && CacheFrameOk(src, c) && (c.pc == CBypassWait || c.pc == CFillWait)
      && AheadFrameOk(src, a) && Request(a.off, a.len) == CacheInner(src, c)
      && a.pc !in {ASmallWait, ALargeWait, APrefetchWait}
    case InMeter(c, a, m) =>
      && CacheFrameOk(src, c) && (c.pc == CBypassWait || c.pc == CFillWait)
      && AheadFrameOk(src, a) && Request(a.off, a.len) == CacheInner(src, c)
      && a.pc in {ASmallWait, ALargeWait, APrefetchWait}
      && m.len > 0 && Request(m.off, m.len) == AheadInner(src, a)
      && (m.pc.MLeave? ==> ResultOk(src, m.off, m.len, m.pc.result))
  }

  ghost predicate PagesOk(src: Source, pages: map<nat, seq<Byte>>) {
    && |pages| <= MAX_PAGES
    && forall p :: p in pages ==> PageOk(src, p, pages[p])
  }

  predicate PageOk(src: Source, p: nat, page: seq<Byte>) {
    p * PAGE_SIZE <= |src.bytes| && IsSlice(src, p * PAGE_SIZE, PageValid(src, p * PAGE_SIZE), page)
  }

  predicate WindowOk(src: Source, start: nat, window: seq<Byte>) {
    IsSlice(src, start, |window|, window)
  }

  ghost predicate DataInv(src: Source, s: State) {
    && PagesOk(src, s.cache.pages) && WindowOk(src, s.ahead.start, s.ahead.window)
    && forall t :: 0 <= t < |s.threads| ==> ThreadOk(src, s.threads[t])
  }

  lemma PageFacts(src: Source, off: nat, len: nat)
    requires len > 0 && InRange(src, off, len)
    ensures PageStart(off) == PageIndex(off) * PAGE_SIZE <= off < PageStart(off) + PAGE_SIZE
    ensures PageStart(off) <= |src.bytes| && PageValid(src, PageStart(off)) > 0
    ensures InRange(src, PageStart(off), PageValid(src, PageStart(off)))
    ensures !GoesDirect(off, len) ==> off - PageStart(off) + len <= PageValid(src, PageStart(off))
  {
    var k := off / PAGE_SIZE;
    assert PageStart(off) == k * PAGE_SIZE;
    assert (k * PAGE_SIZE) / PAGE_SIZE == k;
    if !GoesDirect(off, len) {
      assert (off + len - 1) / PAGE_SIZE == k;
    }
  }

  lemma SubSlice(src: Source, off: nat, len: nat, data: seq<Byte>, from: nat, n: nat)
    requires IsSlice(src, off, len, data) && off <= from && from + n <= off + len
    ensures IsSlice(src, from, n, data[from - off..from - off + n])
  {
  }

  lemma BeginOk(src: Source, off: nat, len: nat)
    ensures ThreadOk(src, BeginRead(src, off, len))
  {
  }

  lemma CacheResumeOk(src: Source, c: CacheFrame, result: Result)
    requires CacheFrameOk(src, c) && (c.pc == CBypassWait || c.pc == CFillWait)
    requires ResultOk(src, CacheInner(src, c).off, CacheInner(src, c).len, result)
    ensures ThreadOk(src, CacheResume(c, result))
  {
    PageFacts(src, c.off, c.len);
  }

  lemma AheadResumeOk(src: Source, c: CacheFrame, a: AheadFrame, result: Result)
    requires CacheFrameOk(src, c) && (c.pc == CBypassWait || c.pc == CFillWait)
    requires AheadFrameOk(src, a) && Request(a.off, a.len) == CacheInner(src, c)
    requires a.pc in {ASmallWait, ALargeWait, APrefetchWait}
    requires ResultOk(src, AheadInner(src, a).off, AheadInner(src, a).len, result)
    ensures ThreadOk(src, AheadResume(c, a, result))
  {
    PageFacts(src, c.off, c.len);
    if result == Fail {
      CacheResumeOk(src, c, Fail);
    }
  }

  lemma CacheLookupOk(src: Source, sh: Cache, c: CacheFrame, victim: nat)
    requires ThreadOk(src, InCache(c)) && PagesOk(src, sh.pages) && PageStart(c.off) <= |src.bytes| && c.pc == CLookup
    ensures ThreadOk(src, CacheMove(src, sh, c, victim).1)
  {
    hide PageStart, PageIndex, PageValid, GoesDirect, Slice;
    PageFacts(src, c.off, c.len);
    if PageIndex(c.off) in sh.pages {
      var page := sh.pages[PageIndex(c.off)];
      assert PageOk(src, PageIndex(c.off), page);
      var inPage := c.off - PageStart(c.off);
      if inPage + c.len <= |page| {
        SubSlice(src, PageStart(c.off), |page|, page, c.off, c.len);
      }
    }
  }

  lemma CacheInsertOk(src: Source, sh: Cache, c: CacheFrame, victim: nat)
    requires ThreadOk(src, InCache(c)) && PagesOk(src, sh.pages) && PageStart(c.off) <= |src.bytes| && c.pc.CInsert?
    requires sh.pages != map[] ==> victim in sh.pages
    ensures var r := CacheMove(src, sh, c, victim); PagesOk(src, r.0.pages) && ThreadOk(src, r.1)
  {
    hide PageStart, PageIndex, PageValid, GoesDirect, PagesOk, Slice;
    PageFacts(src, c.off, c.len);
    var page := c.pc.page;
    SubSlice(src, PageStart(c.off), |page|, page, c.off, c.len);
    InsertOk(src, sh, c, page, victim);
  }

  lemma CacheFillOk(src: Source, sh: Cache, c: CacheFrame, victim: nat)
    requires ThreadOk(src, InCache(c)) && PageStart(c.off) <= |src.bytes| && (c.pc == CFillCall || c.pc == CBypassCall)
    ensures ThreadOk(src, CacheMove(src, sh, c, victim).1)
  {
    hide PageStart, PageIndex, PageValid, GoesDirect;
    PageFacts(src, c.off, c.len);
  }

  lemma CacheMoveOk(src: Source, sh: Cache, c: CacheFrame, victim: nat)
    requires ThreadOk(src, InCache(c)) && PagesOk(src, sh.pages) && PageStart(c.off) <= |src.bytes|
    requires c.pc.CInsert? && sh.pages != map[] ==> victim in sh.pages
    ensures var r := CacheMove(src, sh, c, victim); PagesOk(src, r.0.pages) && ThreadOk(src, r.1)
  {
    hide PageStart, PageIndex, PageValid, GoesDirect, PagesOk, IsSlice;
    match c.pc
    case CLookup => CacheLookupOk(src, sh, c, victim);
    case CInsert(_) => CacheInsertOk(src, sh, c, victim);
    case CFillCall => CacheFillOk(src, sh, c, victim);
    case CBypassCall => CacheFillOk(src, sh, c, victim);
    case _ =>
  }

  lemma InsertOk(src: Source, sh: Cache, c: CacheFrame, page: seq<Byte>, victim: nat)
    requires PagesOk(src, sh.pages) && PageOk(src, PageIndex(c.off), page)
    requires sh.pages != map[] ==> victim in sh.pages
    ensures var p := PageIndex(c.off);
      var full := p !in sh.pages && |sh.pages| >= MAX_PAGES && sh.pages != map[];
      PagesOk(src, (if full then sh.pages - {victim} else sh.pages)[p := page])
  {
    hide PageOk;
    var p := PageIndex(c.off);
    var full := p !in sh.pages && |sh.pages| >= MAX_PAGES && sh.pages != map[];
    var kept := if full then sh.pages - {victim} else sh.pages;
    if full {
      assert kept.Keys == sh.pages.Keys - {victim};
      assert |kept.Keys| == |sh.pages.Keys| - 1;
    }
    var stored := kept[p := page];
    assert stored.Keys == kept.Keys + {p};
  }

  lemma AheadLookupOk(src: Source, sh: Ahead, c: CacheFrame, a: AheadFrame)
    requires ThreadOk(src, InAhead(c, a)) && WindowOk(src, sh.start, sh.window) && a.pc == ALookup
    ensures ThreadOk(src, AheadMove(src, sh, c, a).1)
  {
    hide PageStart, PageIndex, PageValid, GoesDirect, CacheResume, Slice, CacheInner;
    if WindowHolds(sh, a.off, a.len) {
      SubSlice(src, sh.start, |sh.window|, sh.window, a.off, a.len);
      CacheResumeOk(src, c, Data(sh.window[a.off - sh.start..a.off - sh.start + a.len]));
    }
  }

  lemma AheadInstallOk(src: Source, sh: Ahead, c: CacheFrame, a: AheadFrame)
    requires ThreadOk(src, InAhead(c, a)) && a.pc.AInstall?
    ensures var r := AheadMove(src, sh, c, a); WindowOk(src, r.0.start, r.0.window) && ThreadOk(src, r.1)
  {
    hide PageStart, PageIndex, PageValid, GoesDirect, CacheResume, Slice, CacheInner;
    var loaded := a.pc.loaded;
    SubSlice(src, a.off, |loaded|, loaded, a.off, a.len);
    assert loaded[0..a.len] == loaded[..a.len];
    CacheResumeOk(src, c, Data(loaded[..a.len]));
  }

  lemma AheadMoveOk(src: Source, sh: Ahead, c: CacheFrame, a: AheadFrame)
    requires ThreadOk(src, InAhead(c, a)) && WindowOk(src, sh.start, sh.window)
    ensures var r := AheadMove(src, sh, c, a); WindowOk(src, r.0.start, r.0.window) && ThreadOk(src, r.1)
  {
    hide PageStart, PageIndex, PageValid, GoesDirect, CacheResume, IsSlice, CacheInner, CacheFrameOk, WindowOk;
    match a.pc
    case ALookup => AheadLookupOk(src, sh, c, a);
    case AReset(data) => CacheResumeOk(src, c, Data(data));
    case AObserve(data) => CacheResumeOk(src, c, Data(data));
    case AInstall(_) => AheadInstallOk(src, sh, c, a);
    case _ =>
  }

  lemma MeterMoveOk(src: Source, sh: Meter, c: CacheFrame, a: AheadFrame, m: MeterFrame, choice: Choice)
    requires ThreadOk(src, InMeter(c, a, m)) && InRange(src, m.off, m.len)
    ensures ThreadOk(src, MeterMove(src, sh, c, a, m, choice).1)
  {
    hide PageStart, PageIndex, PageValid, GoesDirect, AheadResume, CacheInner, AheadInner, CacheFrameOk, AheadFrameOk;
    if m.pc.MLeave? {
      AheadResumeOk(src, c, a, m.pc.result);
    }
  }

  /** Every action keeps pages, window and call stacks slices of the device. */
  lemma DataPreserved(src: Source, s: State, act: Action)
    requires DataInv(src, s) && Enabled(src, s, act)
    ensures DataInv(src, Apply(src, s, act))
  {
    hide ThreadOk, PagesOk, WindowOk, CacheMove, AheadMove, MeterMove, BeginRead, ClearAhead, CanMove;
    match act
    case Begin(t, off, len) => BeginOk(src, off, len);
    case Move(t, choice) =>
      assert ThreadOk(src, s.threads[t]);
      MovePreserves(src, s, t, choice);
    case ClearPages => NoPagesOk(src);
    case ClearWindow => ClearAheadOk(src, s.ahead);
  }

  lemma NoPagesOk(src: Source)
    ensures PagesOk(src, map[])
  {
  }

  lemma ClearAheadOk(src: Source, sh: Ahead)
    ensures WindowOk(src, ClearAhead(sh).start, ClearAhead(sh).window)
  {
  }

  lemma MovePreserves(src: Source, s: State, t: nat, choice: Choice)
    requires DataInv(src, s) && Enabled(src, s, Move(t, choice))
    ensures DataInv(src, Apply(src, s, Move(t, choice)))
  {
    hide ThreadOk, PagesOk, WindowOk, CacheMove, AheadMove, MeterMove;
    assert ThreadOk(src, s.threads[t]);
    match s.threads[t]
    case InCache(c) => CacheMoveOk(src, s.cache, c, choice.victim);
    case InAhead(c, a) => AheadMoveOk(src, s.ahead, c, a);
    case InMeter(c, a, m) => MeterMoveOk(src, s.meter, c, a, m, choice);
    case _ =>
  }

  lemma InitDataOk(src: Source, n: nat)
    ensures DataInv(src, InitState(n))
  {
  }

  /**
   * In every reachable state of any number of threads: every page and the window are slices of the
   * device, the page count stays within its limit, and every read that has returned true delivered
   * exactly the requested bytes. On a reliable device every in-range read returns true.
   */
  lemma {:induction false} StackReturnsSourceBytes(src: Source, n: nat, acts: seq<Action>)
    requires After(src, n, acts).Some?
    ensures var s := After(src, n, acts).value;
      && DataInv(src, s) && |s.cache.pages| <= MAX_PAGES
      && forall t :: 0 <= t < |s.threads| && s.threads[t].Done? ==>
           ResultOk(src, s.threads[t].off, s.threads[t].len, s.threads[t].result)
  {
    hide Enabled, Apply, InitState;
    if acts == [] {
      InitDataOk(src, n);
    } else {
      StackReturnsSourceBytes(src, n, acts[..|acts| - 1]);
      DataPreserved(src, After(src, n, acts[..|acts| - 1]).value, acts[|acts| - 1]);
    }
  }

  lemma ThreadCanMove(src: Source, t: Thread)
    requires ThreadOk(src, t) && !t.Idle? && !t.Done?
    ensures CanMove(src, t)
  {
  }

  /**
   * No thread is ever stuck: in every reachable state a thread outside a call can begin any read,
   * and one inside a call can move, whether or not the device fails and the compare-exchange fails,
   * for every page the cache may give up.
   */
  lemma NeverStuck(src: Source, n: nat, acts: seq<Action>, t: nat, fail: bool, spurious: bool) returns (victim: nat)
    requires After(src, n, acts).Some? && t < |After(src, n, acts).value.threads|
    ensures var s := After(src, n, acts).value;
      if s.threads[t].Idle? || s.threads[t].Done? then forall off, len :: Enabled(src, s, Begin(t, off, len))
      else
        && Enabled(src, s, Move(t, Choice(fail, spurious, victim)))
        && forall other :: other in s.cache.pages ==> Enabled(src, s, Move(t, Choice(fail, spurious, other)))
  {
    hide After, CanMove, ThreadOk;
    StackReturnsSourceBytes(src, n, acts);
    var s := After(src, n, acts).value;
    assert ThreadOk(src, s.threads[t]);
    victim := 0;
    if s.cache.pages != map[] {
      victim :| victim in s.cache.pages;
    }
    if !s.threads[t].Idle? && !s.threads[t].Done? {
      ThreadCanMove(src, s.threads[t]);
    }
  }

  // ---- counting threads ----

  /** Places in a call where a thread still owes one of the layers something. */
  datatype Class =
    | CacheUncounted  // in the cache layer, not yet a hit, miss or bypass
    | CacheUncalled   // counted there, inner read not yet begun
    | AheadUncounted  // in the read-ahead layer, not yet a hit or miss
    | AheadUncalled   // a miss there, inner read not yet begun
    | MeterUncounted  // in the instrumentation, not yet counted
    | InFlight        // between the in-flight increment and decrement
    | PendingAhead    // look-ahead bytes counted but not yet installed as the window

  function Weight(cls: Class, t: Thread): nat {
    match cls
    case CacheUncounted => if t.InCache? && t.c.pc in {CBypass, CLookup, CMiss} then 1 else 0
    case CacheUncalled => if t.InCache? && t.c.pc in {CBypassCall, CFillCall} then 1 else 0
    case AheadUncounted => if t.InAhead? && t.a.pc in {ALookup, AMiss} then 1 else 0
    case AheadUncalled => if t.InAhead? && t.a.pc in {ASmallCall, ASeqCheck, ALargeCall, APrefetchCall} then 1 else 0
    case MeterUncounted => if t.InMeter? && t.m.pc == MCount then 1 else 0
    case InFlight =>
      if t.InMeter? && (t.m.pc.MMaxLoad? || t.m.pc.MMaxCas? || t.m.pc.MDevice? || t.m.pc.MLeave?) then 1 else 0
    case PendingAhead =>
      if t.InAhead? && t.a.pc.AInstall? && |t.a.pc.loaded| >= t.a.len then |t.a.pc.loaded| - t.a.len else 0
  }

  function Tally(threads: seq<Thread>, cls: Class): nat {
    if threads == [] then 0
    else Tally(threads[..|threads| - 1], cls) + Weight(cls, threads[|threads| - 1])
  }

  lemma {:induction false} TallyUpdate(threads: seq<Thread>, i: nat, t: Thread, cls: Class)
    requires i < |threads|
    ensures Tally(threads[i := t], cls) + Weight(cls, threads[i]) == Tally(threads, cls) + Weight(cls, t)
  {
    hide Weight;
    var front := threads[..|threads| - 1];
    if i == |threads| - 1 {
      assert threads[i := t][..|threads| - 1] == front;
    } else {
      TallyUpdate(front, i, t, cls);
      assert threads[i := t][..|threads| - 1] == front[i := t];
    }
  }

  lemma {:induction false} TallyPositive(threads: seq<Thread>, i: nat, cls: Class)
    requires i < |threads|
    ensures Tally(threads, cls) >= Weight(cls, threads[i])
  {
    hide Weight;
    if i < |threads| - 1 {
      TallyPositive(threads[..|threads| - 1], i, cls);
    }
  }

  lemma {:induction false} TallyQuiet(threads: seq<Thread>, cls: Class)
    requires forall t :: 0 <= t < |threads| ==> threads[t].Idle? || threads[t].Done?
    ensures Tally(threads, cls) == 0
  {
    if threads != [] {
      TallyQuiet(threads[..|threads| - 1], cls);
    }
  }

  predicate Quiescent(s: State) {
    forall t :: 0 <= t < |s.threads| ==> s.threads[t].Idle? || s.threads[t].Done?
  }

  // ---- every call is counted once at each layer, and no layer loses or invents a call ----

  ghost predicate CountInv(s: State) {
    && s.cache.calls == s.cache.hits + s.cache.misses + s.cache.bypassReads + Tally(s.threads, CacheUncounted)
    && s.cache.misses + s.cache.bypassReads == s.ahead.calls + Tally(s.threads, CacheUncalled)
    && s.ahead.calls == s.ahead.hits + s.ahead.misses + Tally(s.threads, AheadUncounted)
    && s.ahead.misses == s.meter.calls + Tally(s.threads, AheadUncalled)
    && s.meter.calls == s.meter.readCalls + Tally(s.threads, MeterUncounted)
    && s.meter.inFlight == Tally(s.threads, InFlight)
  }

  /** The part of the counting a move of one thread must balance. */
  lemma CacheMoveCounts(src: Source, sh: Cache, c: CacheFrame, victim: nat)
    requires PageStart(c.off) <= |src.bytes|
    ensures var r := CacheMove(src, sh, c, victim);
      var was := InCache(c);
      && r.0.calls == sh.calls && !r.1.InMeter? && !r.1.Idle?
      && r.0.hits + r.0.misses + r.0.bypassReads + Weight(CacheUncounted, r.1)
         == sh.hits + sh.misses + sh.bypassReads + Weight(CacheUncounted, was)
      && r.0.misses + r.0.bypassReads + Weight(CacheUncalled, was)
         == sh.misses + sh.bypassReads + Weight(CacheUncalled, r.1) + (if r.1.InAhead? then 1 else 0)
      && (r.1.InAhead? ==> r.1.a.pc == ALookup)
  {
    hide PageStart, PageIndex, PageValid, GoesDirect, IsSlice;
  }

  lemma CacheResumeCounts(c: CacheFrame, result: Result)
    ensures Settled(CacheResume(c, result))
  {
  }

  /** The result an ahead-layer move that ends its call hands to the cache layer. */
  function AheadResult(sh: Ahead, a: AheadFrame): Result {
    match a.pc
    case ALookup =>
      if WindowHolds(sh, a.off, a.len) then Data(sh.window[a.off - sh.start..a.off - sh.start + a.len]) else Fail
    case AReset(data) => Data(data)
    case AObserve(data) => Data(data)
    case AInstall(loaded) => if a.len <= |loaded| then Data(loaded[..a.len]) else Fail
    case _ => Fail
  }

  /** A thread that owes none of the layers anything. */
  predicate Settled(t: Thread) {
    t.Done? || (t.InCache? && t.c.pc.CInsert?)
  }

  lemma AheadMoveCounts(src: Source, sh: Ahead, c: CacheFrame, a: AheadFrame)
    requires a.off <= |src.bytes|
    ensures var r := AheadMove(src, sh, c, a);
      var was := InAhead(c, a);
      && r.0.calls == sh.calls && !r.1.Idle?
      && (r.1.InCache? ==> r.1.c.pc.CInsert?)
      && r.0.hits + r.0.misses + Weight(AheadUncounted, r.1) == sh.hits + sh.misses + Weight(AheadUncounted, was)
      && r.0.misses + Weight(AheadUncalled, was)
         == sh.misses + Weight(AheadUncalled, r.1) + (if r.1.InMeter? then 1 else 0)
      && (r.1.InMeter? ==> r.1.m.pc == MCount)
  {
    hide PageStart, PageIndex, PageValid, GoesDirect, IsSlice, CacheResume, CacheFrameOk, CacheInner, Unserved;
    CacheResumeCounts(c, AheadResult(sh, a));
  }

  lemma MeterMoveCounts(src: Source, sh: Meter, c: CacheFrame, a: AheadFrame, m: MeterFrame, choice: Choice)
    requires InRange(src, m.off, m.len) && ThreadOk(src, InMeter(c, a, m))
    requires sh.inFlight >= Weight(InFlight, InMeter(c, a, m))
    ensures var r := MeterMove(src, sh, c, a, m, choice);
      var was := InMeter(c, a, m);
      && r.0.calls == sh.calls && !r.1.Idle?
      && r.0.readCalls + Weight(MeterUncounted, r.1) == sh.readCalls + Weight(MeterUncounted, was)
      && r.0.inFlight + Weight(InFlight, was) == sh.inFlight + Weight(InFlight, r.1)
      && (r.1.InCache? ==> r.1.c.pc.CInsert?)
      && (r.1.InAhead? ==> r.1.a.pc.AReset? || r.1.a.pc.AObserve? || r.1.a.pc.ACountPrefetch?)
  {
    hide PageStart, PageIndex, PageValid, GoesDirect, IsSlice, CacheResume, CacheFrameOk, CacheInner, AheadInner;
    CacheResumeCounts(c, Fail);
  }

  lemma {:induction false} TalliesUpdate(threads: seq<Thread>, i: nat, t: Thread)
    requires i < |threads|
    ensures forall cls :: Tally(threads[i := t], cls) + Weight(cls, threads[i]) == Tally(threads, cls) + Weight(cls, t)
  {
    hide Tally, Weight;
    forall cls ensures Tally(threads[i := t], cls) + Weight(cls, threads[i]) == Tally(threads, cls) + Weight(cls, t) {
      TallyUpdate(threads, i, t, cls);
    }
  }

  lemma BeginCounts(src: Source, s: State, t: nat, off: nat, len: nat)
    requires CountInv(s) && Enabled(src, s, Begin(t, off, len))
    ensures CountInv(Apply(src, s, Begin(t, off, len)))
  {
    hide Tally, GoesDirect;
    TalliesUpdate(s.threads, t, BeginRead(src, off, len));
  }

  lemma CacheMoveBalances(src: Source, s: State, t: nat, choice: Choice)
    requires CountInv(s) && DataInv(src, s) && Enabled(src, s, Move(t, choice)) && s.threads[t].InCache?
    ensures CountInv(Apply(src, s, Move(t, choice)))
  {
    hide Tally, ThreadOk, CacheMove, AheadMove, MeterMove, PagesOk, WindowOk, Settled;
    assert ThreadOk(src, s.threads[t]);
    var c := s.threads[t].c;
    CacheMoveCounts(src, s.cache, c, choice.victim);
    TalliesUpdate(s.threads, t, CacheMove(src, s.cache, c, choice.victim).1);
  }

  lemma AheadMoveBalances(src: Source, s: State, t: nat, choice: Choice)
    requires CountInv(s) && DataInv(src, s) && Enabled(src, s, Move(t, choice)) && s.threads[t].InAhead?
    ensures CountInv(Apply(src, s, Move(t, choice)))
  {
    hide Tally, ThreadOk, CacheMove, AheadMove, MeterMove, PagesOk, WindowOk, Settled;
    assert ThreadOk(src, s.threads[t]);
    var c, a := s.threads[t].c, s.threads[t].a;
    AheadMoveCounts(src, s.ahead, c, a);
    TalliesUpdate(s.threads, t, AheadMove(src, s.ahead, c, a).1);
  }

  lemma MeterMoveBalances(src: Source, s: State, t: nat, choice: Choice)
    requires CountInv(s) && DataInv(src, s) && Enabled(src, s, Move(t, choice)) && s.threads[t].InMeter?
    ensures CountInv(Apply(src, s, Move(t, choice)))
  {
    hide Tally, ThreadOk, CacheMove, AheadMove, MeterMove, PagesOk, WindowOk, Settled;
    assert ThreadOk(src, s.threads[t]);
    var c, a, m := s.threads[t].c, s.threads[t].a, s.threads[t].m;
    TallyPositive(s.threads, t, InFlight);
    MeterMoveCounts(src, s.meter, c, a, m, choice);
    TalliesUpdate(s.threads, t, MeterMove(src, s.meter, c, a, m, choice).1);
  }

  lemma MoveCounts(src: Source, s: State, t: nat, choice: Choice)
    requires CountInv(s) && DataInv(src, s) && Enabled(src, s, Move(t, choice))
    ensures CountInv(Apply(src, s, Move(t, choice)))
  {
    hide DataInv, CountInv, Apply;
    match s.threads[t]
    case InCache(_) => CacheMoveBalances(src, s, t, choice);
    case InAhead(_, _) => AheadMoveBalances(src, s, t, choice);
    case InMeter(_, _, _) => MeterMoveBalances(src, s, t, choice);
    case _ =>
  }

  lemma CountPreserved(src: Source, s: State, act: Action)
    requires CountInv(s) && DataInv(src, s) && Enabled(src, s, act)
    ensures CountInv(Apply(src, s, act))
  {
    hide DataInv, Tally, Enabled;
    match act
    case Begin(t, off, len) => BeginCounts(src, s, t, off, len);
    case Move(t, choice) => MoveCounts(src, s, t, choice);
    case _ =>
  }

  lemma InitCounts(n: nat)
    ensures CountInv(InitState(n))
  {
    hide Tally;
    forall cls ensures Tally(InitState(n).threads, cls) == 0 {
      TallyQuiet(InitState(n).threads, cls);
    }
  }

  // ---- the window's account ----

  /**
   * Speculative bytes wasted, still waiting in the window, or about to become it were all prefetched,
   * and whatever else was prefetched has been served from the window.
   */
  ghost predicate WasteInv(s: State) {
    var kept := s.ahead.wasted + Unserved(s.ahead) + Tally(s.threads, PendingAhead);
    kept <= s.ahead.prefetched <= kept + s.ahead.servedFromWindow
  }

  /** What one move of the read-ahead layer leaves to account for never exceeds what it has paid for. */
  ghost predicate WasteBalanced(sh: Ahead, was: Thread, sh': Ahead, t: Thread) {
    var kept := sh.wasted + Unserved(sh) + Weight(PendingAhead, was);
    var kept' := sh'.wasted + Unserved(sh') + Weight(PendingAhead, t);
    && kept' + sh.prefetched <= kept + sh'.prefetched
    && kept + sh'.prefetched + sh.servedFromWindow <= kept' + sh.prefetched + sh'.servedFromWindow
  }

  lemma AheadInstallWaste(src: Source, sh: Ahead, c: CacheFrame, a: AheadFrame)
    requires a.off <= |src.bytes| && a.pc.AInstall?
    ensures var r := AheadMove(src, sh, c, a); WasteBalanced(sh, InAhead(c, a), r.0, r.1)
  {
    hide CacheResume, WindowHolds;
    CacheResumeCounts(c, AheadResult(sh, a));
  }

  lemma AheadHitWaste(src: Source, sh: Ahead, c: CacheFrame, a: AheadFrame)
    requires a.off <= |src.bytes| && a.pc == ALookup
    ensures var r := AheadMove(src, sh, c, a); WasteBalanced(sh, InAhead(c, a), r.0, r.1)
  {
    hide PageStart, CacheResume;
    CacheResumeCounts(c, AheadResult(sh, a));
  }

  lemma AheadMoveWaste(src: Source, sh: Ahead, c: CacheFrame, a: AheadFrame)
    requires a.off <= |src.bytes|
    ensures var r := AheadMove(src, sh, c, a); WasteBalanced(sh, InAhead(c, a), r.0, r.1)
  {
    hide PageStart, PageIndex, PageValid, CacheResume, WindowHolds;
    if a.pc.AInstall? {
      AheadInstallWaste(src, sh, c, a);
    } else if a.pc == ALookup {
      AheadHitWaste(src, sh, c, a);
    } else {
      CacheResumeCounts(c, AheadResult(sh, a));
    }
  }

  lemma WastePreserved(src: Source, s: State, act: Action)
    requires WasteInv(s) && DataInv(src, s) && Enabled(src, s, act)
    ensures WasteInv(Apply(src, s, act))
  {
    hide Tally, ThreadOk, CacheMove, AheadMove, MeterMove, PagesOk, WindowOk, GoesDirect;
    match act
    case Begin(t, off, len) => TallyUpdate(s.threads, t, BeginRead(src, off, len), PendingAhead);
    case Move(t, choice) =>
      assert ThreadOk(src, s.threads[t]);
      MoveWaste(src, s, t, choice);
    case _ =>
  }

  lemma MoveWaste(src: Source, s: State, t: nat, choice: Choice)
    requires WasteInv(s) && t < |s.threads| && CanMove(src, s.threads[t]) && ThreadOk(src, s.threads[t])
    requires Enabled(src, s, Move(t, choice))
    ensures WasteInv(Apply(src, s, Move(t, choice)))
  {
    hide Tally, ThreadOk, CacheMove, AheadMove, MeterMove, Unserved;
    match s.threads[t]
    case InCache(c) =>
      CacheMoveCounts(src, s.cache, c, choice.victim);
      TallyUpdate(s.threads, t, CacheMove(src, s.cache, c, choice.victim).1, PendingAhead);
      CallsOnly(s.ahead);
    case InAhead(c, a) =>
      AheadMoveWaste(src, s.ahead, c, a);
      TallyUpdate(s.threads, t, AheadMove(src, s.ahead, c, a).1, PendingAhead);
    case InMeter(c, a, m) =>
      MeterMoveShape(src, s.meter, c, a, m, choice);
      TallyUpdate(s.threads, t, MeterMove(src, s.meter, c, a, m, choice).1, PendingAhead);
    case _ =>
  }

  lemma CallsOnly(sh: Ahead)
    ensures Unserved(sh.(calls := sh.calls + 1)) == Unserved(sh)
  {
  }

  lemma MeterMoveShape(src: Source, sh: Meter, c: CacheFrame, a: AheadFrame, m: MeterFrame, choice: Choice)
    requires InRange(src, m.off, m.len)
    ensures var t := MeterMove(src, sh, c, a, m, choice).1;
      && (t.InAhead? ==> t.a.pc.AReset? || t.a.pc.AObserve? || t.a.pc.ACountPrefetch?)
      && (t.InMeter? || Weight(PendingAhead, t) == 0)
  {
    hide CacheResume, Slice;
    CacheResumeCounts(c, Fail);
  }

  // ---- the peak counters ----

  /** Thread `t` obtained in-flight value `x` and has not finished recording it. */
  predicate Recording(t: Thread, x: nat) {
    t.InMeter? && ((t.m.pc.MMaxLoad? && t.m.pc.active == x) || (t.m.pc.MMaxCas? && t.m.pc.active == x))
  }

  predicate RecordingLength(t: Thread, x: nat) {
    t.InMeter? && (t.m.pc.MLargestLoad? || t.m.pc.MLargestCas?) && t.m.len == x
  }

  ghost predicate SomeRecording(threads: seq<Thread>, x: nat) {
    exists t :: 0 <= t < |threads| && Recording(threads[t], x)
  }

  ghost predicate SomeRecordingLength(threads: seq<Thread>, x: nat) {
    exists t :: 0 <= t < |threads| && RecordingLength(threads[t], x)
  }

  predicate CasOk(sh: Meter, t: Thread) {
    t.InMeter? ==>
      && (t.m.pc.MMaxLoad? ==> t.m.pc.active in sh.obtained)
      && (t.m.pc.MMaxCas? ==> t.m.pc.active in sh.obtained && t.m.pc.observed <= sh.maxInFlight)
      && (t.m.pc.MLargestLoad? ==> t.m.len in sh.lengths)
      && (t.m.pc.MLargestCas? ==> t.m.len in sh.lengths && t.m.pc.observed <= sh.largest)
  }

  /** Each maximum is a recorded value, and any larger one is still being recorded by its thread. */
  ghost predicate PeakInv(s: State) {
    && (s.meter.maxInFlight == 0 || s.meter.maxInFlight in s.meter.obtained)
    && (s.meter.largest == 0 || s.meter.largest in s.meter.lengths)
    && (forall x :: x in s.meter.obtained ==> x <= s.meter.maxInFlight || SomeRecording(s.threads, x))
    && (forall x :: x in s.meter.lengths ==> x <= s.meter.largest || SomeRecordingLength(s.threads, x))
    && (forall t :: 0 <= t < |s.threads| ==> CasOk(s.meter, s.threads[t]))
  }

  /** A move that only shortens a stack, or is not in the instrumentation, records nothing new. */
  lemma PeakOtherThread(s: State, s': State, t: nat)
    requires PeakInv(s) && t < |s.threads| && |s'.threads| == |s.threads|
    requires s'.threads == s.threads[t := s'.threads[t]]
    requires s'.meter.(calls := 0) == s.meter.(calls := 0)
    requires forall x: nat :: !Recording(s.threads[t], x) && !RecordingLength(s.threads[t], x)
    requires CasOk(s.meter, s'.threads[t])
    ensures PeakInv(s')
  {
    forall x: nat | x in s'.meter.obtained ensures x <= s'.meter.maxInFlight || SomeRecording(s'.threads, x) {
      if x > s.meter.maxInFlight {
        var v :| 0 <= v < |s.threads| && Recording(s.threads[v], x);
        assert s'.threads[v] == s.threads[v];
      }
    }
    forall x: nat | x in s'.meter.lengths ensures x <= s'.meter.largest || SomeRecordingLength(s'.threads, x) {
      if x > s.meter.largest {
        var v :| 0 <= v < |s.threads| && RecordingLength(s.threads[v], x);
        assert s'.threads[v] == s.threads[v];
      }
    }
  }

  /** What one instrumentation step does to the maxima and to what its own thread still records. */
  lemma MeterMovePeak(src: Source, sh: Meter, c: CacheFrame, a: AheadFrame, m: MeterFrame, choice: Choice)
    requires InRange(src, m.off, m.len) && CasOk(sh, InMeter(c, a, m))
    requires sh.maxInFlight == 0 || sh.maxInFlight in sh.obtained
    requires sh.largest == 0 || sh.largest in sh.lengths
    ensures var r := MeterMove(src, sh, c, a, m, choice);
      && (r.0.maxInFlight == 0 || r.0.maxInFlight in r.0.obtained)
      && (r.0.largest == 0 || r.0.largest in r.0.lengths)
      && r.0.maxInFlight >= sh.maxInFlight && r.0.largest >= sh.largest
      && r.0.obtained >= sh.obtained && r.0.lengths >= sh.lengths
      && CasOk(r.0, r.1)
      && (forall x: nat :: x in r.0.obtained ==> x in sh.obtained || Recording(r.1, x))
      && (forall x: nat :: x in r.0.lengths ==> x in sh.lengths || RecordingLength(r.1, x))
      && (forall x: nat :: Recording(InMeter(c, a, m), x) ==> x <= r.0.maxInFlight || Recording(r.1, x))
      && (forall x: nat :: RecordingLength(InMeter(c, a, m), x) ==> x <= r.0.largest || RecordingLength(r.1, x))
  {
    hide AheadResume, Slice;
    if m.pc.MLeave? {
      AheadResumeShape(c, a, m.pc.result);
    }
  }

  lemma AheadResumeShape(c: CacheFrame, a: AheadFrame, result: Result)
    ensures !AheadResume(c, a, result).InMeter?
  {
  }

  lemma MeterPeak(src: Source, s: State, t: nat, choice: Choice)
    requires PeakInv(s) && Enabled(src, s, Move(t, choice)) && s.threads[t].InMeter?
    ensures PeakInv(Apply(src, s, Move(t, choice)))
  {
    hide MeterMove, CasOk, Recording, RecordingLength;
    var s' := Apply(src, s, Move(t, choice));
    MeterMovePeak(src, s.meter, s.threads[t].c, s.threads[t].a, s.threads[t].m, choice);
    forall x: nat | x in s'.meter.obtained ensures x <= s'.meter.maxInFlight || SomeRecording(s'.threads, x) {
      if x in s.meter.obtained && x > s.meter.maxInFlight {
        var v :| 0 <= v < |s.threads| && Recording(s.threads[v], x);
        assert v == t || s'.threads[v] == s.threads[v];
      }
      assert Recording(s'.threads[t], x) ==> SomeRecording(s'.threads, x);
    }
    forall x: nat | x in s'.meter.lengths ensures x <= s'.meter.largest || SomeRecordingLength(s'.threads, x) {
      if x in s.meter.lengths && x > s.meter.largest {
        var v :| 0 <= v < |s.threads| && RecordingLength(s.threads[v], x);
        assert v == t || s'.threads[v] == s.threads[v];
      }
      assert RecordingLength(s'.threads[t], x) ==> SomeRecordingLength(s'.threads, x);
    }
    forall v | 0 <= v < |s'.threads| ensures CasOk(s'.meter, s'.threads[v]) {
      if v != t {
        CasMonotone(s.meter, s'.meter, s.threads[v]);
      }
    }
  }

  lemma CasMonotone(sh: Meter, sh': Meter, t: Thread)
    requires CasOk(sh, t) && sh'.maxInFlight >= sh.maxInFlight && sh'.largest >= sh.largest
    requires sh'.obtained >= sh.obtained && sh'.lengths >= sh.lengths
    ensures CasOk(sh', t)
  {
  }

  lemma PeakPreserved(src: Source, s: State, act: Action)
    requires PeakInv(s) && DataInv(src, s) && Enabled(src, s, act)
    ensures PeakInv(Apply(src, s, act))
  {
    hide PeakInv, ThreadOk, CacheMove, AheadMove, MeterMove, PagesOk, WindowOk, GoesDirect, ClearAhead;
    var s' := Apply(src, s, act);
    match act
    case Begin(t, off, len) => PeakOtherThread(s, s', t);
    case Move(t, choice) =>
      assert ThreadOk(src, s.threads[t]);
      match s.threads[t] {
        case InCache(c) =>
          CacheMoveCounts(src, s.cache, c, choice.victim);
          PeakOtherThread(s, s', t);
        case InAhead(c, a) =>
          AheadMoveCounts(src, s.ahead, c, a);
          PeakOtherThread(s, s', t);
        case InMeter(c, a, m) => MeterPeak(src, s, t, choice);
        case _ =>
      }
    case _ => PeakSame(s, s');
  }

  lemma PeakSame(s: State, s': State)
    requires PeakInv(s) && s'.meter == s.meter && s'.threads == s.threads
    ensures PeakInv(s')
  {
  }

  // ---- over every interleaving ----

  ghost predicate Inv(src: Source, s: State) {
    DataInv(src, s) && CountInv(s) && WasteInv(s) && PeakInv(s)
  }

  lemma InitInv(src: Source, n: nat)
    ensures Inv(src, InitState(n))
  {
    hide Tally, DataInv, CountInv;
    InitDataOk(src, n);
    InitCounts(n);
    TallyQuiet(InitState(n).threads, PendingAhead);
  }

  lemma ActionKeepsInv(src: Source, s: State, act: Action)
    requires Inv(src, s) && Enabled(src, s, act)
    ensures Inv(src, Apply(src, s, act))
  {
    hide DataInv, CountInv, WasteInv, PeakInv, Enabled, Apply;
    DataPreserved(src, s, act);
    CountPreserved(src, s, act);
    WastePreserved(src, s, act);
    PeakPreserved(src, s, act);
  }

  /** All invariants together, in every state any interleaving reaches. */
  lemma {:induction false} ReachableInv(src: Source, n: nat, acts: seq<Action>)
    requires After(src, n, acts).Some?
    ensures Inv(src, After(src, n, acts).value)
  {
    hide Inv, Enabled, Apply, InitState;
    if acts == [] {
      InitInv(src, n);
    } else {
      var front, last := acts[..|acts| - 1], acts[|acts| - 1];
      ReachableInv(src, n, front);
      ActionKeepsInv(src, After(src, n, front).value, last);
    }
  }

  /**
   * Once quiescent: at each layer every call counted exactly once, each layer's calls are exactly
   * the misses (and bypasses) of the layer above, nothing is in flight, and both maxima are the
   * largest values any reader obtained.
   */
  lemma {:induction false} QuiescentAccounts(src: Source, n: nat, acts: seq<Action>)
    requires After(src, n, acts).Some? && Quiescent(After(src, n, acts).value)
    ensures var s := After(src, n, acts).value;
      && s.cache.calls == s.cache.hits + s.cache.misses + s.cache.bypassReads
      && s.ahead.calls == s.cache.misses + s.cache.bypassReads == s.ahead.hits + s.ahead.misses
      && s.meter.readCalls == s.ahead.misses
      && s.meter.inFlight == 0
      && s.ahead.wasted + Unserved(s.ahead) <= s.ahead.prefetched
         <= s.ahead.wasted + Unserved(s.ahead) + s.ahead.servedFromWindow
    ensures var m := After(src, n, acts).value.meter;
      && IsMaximum(m.maxInFlight, m.obtained) && IsMaximum(m.largest, m.lengths)
  {
    hide DataInv, Tally, Unserved, After;
    ReachableInv(src, n, acts);
    var s := After(src, n, acts).value;
    forall cls ensures Tally(s.threads, cls) == 0 {
      TallyQuiet(s.threads, cls);
    }
  }

  /** The largest element, or zero for none. */
  ghost predicate IsMaximum(x: nat, s: set<nat>) {
    (if s == {} then x == 0 else x in s) && forall y :: y in s ==> y <= x
  }
}
