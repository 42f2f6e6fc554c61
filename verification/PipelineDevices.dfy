/**
 * The three device wrappers as the classes they are: `read_cache_block_device.hpp`,
 * `read_ahead_block_device.hpp` and `instrumented_block_device.hpp`. Run by one thread, every `Read`
 * is proved to be a run of the state machine of `CacheStack`, step by step, so the machine's steps
 * are the code's and its invariants hold of the objects.
 */
module PipelineDevices {
  import opened Bytes
  import opened CacheStack

  // ---- runs of a single thread ----

  /** Where the environment's choices lead thread 0 from `s`, if each move is possible. */
  ghost function RunOf(src: Source, s: State, choices: seq<Choice>): Option<State>
    decreases |choices|
  {
    if choices == [] then Some(s)
    else
      match RunOf(src, s, choices[..|choices| - 1])
      case None => None
      case Some(m) =>
        var act := Move(0, choices[|choices| - 1]);
        if Enabled(src, m, act) then Some(Apply(src, m, act)) else None
  }

  ghost predicate Runs(src: Source, s: State, t: State) {
    exists choices :: RunOf(src, s, choices) == Some(t)
  }

  lemma RunsNowhere(src: Source, s: State)
    ensures Runs(src, s, s)
  {
    assert RunOf(src, s, []) == Some(s);
  }

  lemma RunsOn(src: Source, s: State, m: State, choice: Choice)
    requires Runs(src, s, m) && Enabled(src, m, Move(0, choice))
    ensures Runs(src, s, Apply(src, m, Move(0, choice)))
  {
    hide Enabled, Apply;
    var choices :| RunOf(src, s, choices) == Some(m);
    assert (choices + [choice])[..|choices|] == choices;
    assert RunOf(src, s, choices + [choice]) == Some(Apply(src, m, Move(0, choice)));
  }

  /** A run keeps every invariant of the machine. */
  lemma {:induction false} RunKeepsInv(src: Source, s: State, choices: seq<Choice>)
    requires Inv(src, s) && RunOf(src, s, choices).Some?
    ensures Inv(src, RunOf(src, s, choices).value)
    decreases |choices|
  {
    hide Inv, Enabled, Apply;
    if choices != [] {
      var front := choices[..|choices| - 1];
      RunKeepsInv(src, s, front);
      ActionKeepsInv(src, RunOf(src, s, front).value, Move(0, choices[|choices| - 1]));
    }
  }

  lemma RunsKeepInv(src: Source, s: State, t: State)
    requires Inv(src, s) && Runs(src, s, t)
    ensures Inv(src, t)
  {
    hide Inv, RunOf;
    var choices :| RunOf(src, s, choices) == Some(t);
    RunKeepsInv(src, s, choices);
  }

  lemma FinishedOk(src: Source, s: State, off: nat, len: nat, result: Result)
    requires Inv(src, s) && s.threads == [Done(off, len, result)]
    ensures ResultOk(src, off, len, result)
  {
    hide CountInv, WasteInv, PeakInv, ResultOk;
    assert ThreadOk(src, s.threads[0]);
  }

  const CALM: Choice := Choice(false, false, 0)

  lemma OnlyThread(s: State, t: Thread)
    requires |s.threads| == 1
    ensures s.threads[0 := t] == [t]
  {
  }

  lemma MeterStep(src: Source, s0: State, s: State, c: CacheFrame, a: AheadFrame, m: MeterFrame, choice: Choice)
    requires Runs(src, s0, s) && s.threads == [InMeter(c, a, m)] && InRange(src, m.off, m.len)
    ensures var r := MeterMove(src, s.meter, c, a, m, choice); Runs(src, s0, State(s.cache, s.ahead, r.0, [r.1]))
  {
    hide MeterMove, Runs;
    RunsOn(src, s0, s, choice);
    OnlyThread(s, MeterMove(src, s.meter, c, a, m, choice).1);
  }

  lemma AheadStep(src: Source, s0: State, s: State, c: CacheFrame, a: AheadFrame)
    requires Runs(src, s0, s) && s.threads == [InAhead(c, a)] && a.off <= |src.bytes|
    ensures var r := AheadMove(src, s.ahead, c, a);
      Runs(src, s0, State(s.cache, r.0, if r.1.InMeter? then s.meter.(calls := s.meter.calls + 1) else s.meter, [r.1]))
  {
    hide AheadMove, Runs;
    RunsOn(src, s0, s, CALM);
    OnlyThread(s, AheadMove(src, s.ahead, c, a).1);
  }

  lemma CacheStep(src: Source, s0: State, s: State, c: CacheFrame, victim: nat)
    requires Runs(src, s0, s) && s.threads == [InCache(c)] && PageStart(c.off) <= |src.bytes|
    requires c.pc.CInsert? && s.cache.pages != map[] ==> victim in s.cache.pages
    ensures var r := CacheMove(src, s.cache, c, victim);
      Runs(src, s0, State(r.0, if r.1.InAhead? then s.ahead.(calls := s.ahead.calls + 1) else s.ahead, s.meter, [r.1]))
  {
    hide CacheMove, Runs, PageStart;
    RunsOn(src, s0, s, Choice(false, false, victim));
    OnlyThread(s, CacheMove(src, s.cache, c, victim).1);
  }

  /** Where a call into the instrumentation comes from: the run so far and the stack above. */
  datatype Caller = Caller(s0: State, cache: Cache, ahead: Ahead, c: CacheFrame, a: AheadFrame)

  // ---- instrumentation ----

  class InstrumentedDevice {
    const src: Source
    var readCalls: nat
    var failedReads: nat
    var largestRead: nat
    var inFlight: nat
    var maxInFlight: nat
    ghost var calls: nat
    ghost var obtained: set<nat>
    ghost var lengths: set<nat>

    constructor (src: Source)
      ensures this.src == src && Shared() == InitState(1).meter
    {
      this.src := src;
      readCalls, failedReads, largestRead, inFlight, maxInFlight := 0, 0, 0, 0, 0;
      calls, obtained, lengths := 0, {}, {};
    }

    ghost function Shared(): Meter
      reads this
    {
      Meter(calls, readCalls, failedReads, largestRead, inFlight, maxInFlight, obtained, lengths)
    }

    /** The run has brought the caller's thread to `t`. */
    ghost predicate At(k: Caller, t: Thread)
      reads this
    {
      Runs(src, k.s0, State(k.cache, k.ahead, Shared(), [t]))
    }

    ghost predicate Doing(k: Caller, m: MeterFrame)
      reads this
    {
      At(k, InMeter(k.c, k.a, m))
    }

    /** What the machine does next. */
    lemma Step(k: Caller, m: MeterFrame, choice: Choice)
      requires Doing(k, m) && InRange(src, m.off, m.len)
      ensures var r := MeterMove(src, Shared(), k.c, k.a, m, choice);
        Runs(src, k.s0, State(k.cache, k.ahead, r.0, [r.1]))
    {
      hide MeterMove, Runs;
      MeterStep(src, k.s0, State(k.cache, k.ahead, Shared(), [InMeter(k.c, k.a, m)]), k.c, k.a, m, choice);
    }

    /** The wrapped device; requests it cannot hold fail. */
    method DeviceRead(off: nat, len: nat) returns (result: Result)
      ensures InRange(src, off, len) ==> result == Data(Slice(src, off, len)) || (result == Fail && !src.reliable)
      ensures !InRange(src, off, len) ==> result == Fail
    {
      if !InRange(src, off, len) {
        return Fail;
      }
      var fails := false;
      if !src.reliable {
        fails := *;
      }
      result := if fails then Fail else Data(Slice(src, off, len));
    }

    /** What the machine does next, for a request it covers. */
    lemma StepInRange(k: Caller, m: MeterFrame, choice: Choice)
      requires InRange(src, m.off, m.len) ==> Doing(k, m)
      ensures InRange(src, m.off, m.len) ==>
        var r := MeterMove(src, Shared(), k.c, k.a, m, choice); Runs(src, k.s0, State(k.cache, k.ahead, r.0, [r.1]))
    {
      hide MeterMove, Runs;
      if InRange(src, m.off, m.len) {
        Step(k, m, choice);
      }
    }

    /** Raises the largest request; a compare-exchange may fail for no reason a few times. */
    method RaiseLargest(off: nat, len: nat, ghost k: Caller)
      requires InRange(src, off, len) ==> Doing(k, MeterFrame(off, len, MLargestLoad))
      modifies this`largestRead
      ensures largestRead == if old(largestRead) < len then len else old(largestRead)
      ensures InRange(src, off, len) ==> Doing(k, MeterFrame(off, len, MEnter))
    {
      hide Runs, AheadResume, Slice;
      StepInRange(k, MeterFrame(off, len, MLargestLoad), CALM);
      var observed := largestRead;
      var spurious: nat := *;
      while observed < len
        invariant observed == largestRead == old(largestRead)
        invariant InRange(src, off, len) ==> Doing(k, MeterFrame(off, len, MLargestCas(observed)))
        decreases spurious
      {
        StepInRange(k, MeterFrame(off, len, MLargestCas(observed)), Choice(false, spurious > 0, 0));
        if spurious == 0 {
          largestRead := len;
          return;
        }
        spurious := spurious - 1;
        observed := largestRead;
      }
      StepInRange(k, MeterFrame(off, len, MLargestCas(observed)), CALM);
    }

    method RaiseMaximum(off: nat, len: nat, active: nat, ghost k: Caller)
      requires InRange(src, off, len) ==> Doing(k, MeterFrame(off, len, MMaxLoad(active)))
      modifies this`maxInFlight
      ensures maxInFlight == if old(maxInFlight) < active then active else old(maxInFlight)
      ensures InRange(src, off, len) ==> Doing(k, MeterFrame(off, len, MDevice))
    {
      hide Runs, AheadResume, Slice;
      StepInRange(k, MeterFrame(off, len, MMaxLoad(active)), CALM);
      var maxActive := maxInFlight;
      var spurious: nat := *;
      while maxActive < active
        invariant maxActive == maxInFlight == old(maxInFlight)
        invariant InRange(src, off, len) ==> Doing(k, MeterFrame(off, len, MMaxCas(active, maxActive)))
        decreases spurious
      {
        StepInRange(k, MeterFrame(off, len, MMaxCas(active, maxActive)), Choice(false, spurious > 0, 0));
        if spurious == 0 {
          maxInFlight := active;
          return;
        }
        spurious := spurious - 1;
        maxActive := maxInFlight;
      }
      StepInRange(k, MeterFrame(off, len, MMaxCas(active, maxActive)), CALM);
    }

    /** Any request, inside the device or not, is counted, passed on, and leaves nothing in flight. */
    method Read(off: nat, len: nat, ghost k: Caller) returns (result: Result)
      requires InRange(src, off, len) ==> Doing(k, MeterFrame(off, len, MCount))
      modifies this
      ensures InRange(src, off, len) ==> At(k, AheadResume(k.c, k.a, result))
      ensures if InRange(src, off, len) then result.Data? ==> |result.bytes| == len else result == Fail
      ensures readCalls == old(readCalls) + 1 && failedReads == old(failedReads) + (if result == Fail then 1 else 0)
      ensures largestRead == (if old(largestRead) < len then len else old(largestRead)) && inFlight == old(inFlight)
      ensures maxInFlight == if old(maxInFlight) < inFlight + 1 then inFlight + 1 else old(maxInFlight)
    {
      hide Runs, AheadResume, Slice;
      StepInRange(k, MeterFrame(off, len, MCount), CALM);
      readCalls := readCalls + 1;
      lengths := lengths + {len};
      RaiseLargest(off, len, k);

      StepInRange(k, MeterFrame(off, len, MEnter), CALM);
      var active := inFlight + 1;
      inFlight := active;
      obtained := obtained + {active};
      RaiseMaximum(off, len, active, k);

      result := ReadAndLeave(off, len, k);
    }

    method ReadAndLeave(off: nat, len: nat, ghost k: Caller) returns (result: Result)
      requires inFlight > 0 && (InRange(src, off, len) ==> Doing(k, MeterFrame(off, len, MDevice)))
      modifies this`inFlight, this`failedReads
      ensures InRange(src, off, len) ==> At(k, AheadResume(k.c, k.a, result))
      ensures if InRange(src, off, len) then result.Data? ==> |result.bytes| == len else result == Fail
      ensures inFlight == old(inFlight) - 1 && failedReads == old(failedReads) + (if result == Fail then 1 else 0)
    {
      hide Runs, AheadResume, Slice;
      result := DeviceRead(off, len);
      StepInRange(k, MeterFrame(off, len, MDevice), Choice(result == Fail, false, 0));
      StepInRange(k, MeterFrame(off, len, MLeave(result)), CALM);
      inFlight := inFlight - 1;
      if result == Fail {
        failedReads := failedReads + 1;
      }
    }
  }

  // ---- the read-ahead window ----

  class ReadAheadDevice {
    const inner: InstrumentedDevice
    var window: seq<Byte>
    var windowStart: nat
    var windowServed: nat
    var hasLast: bool
    var lastEnd: nat
    var hits: nat
    var misses: nat
    var prefetches: nat
    var prefetched: nat
    var servedFromWindow: nat
    var wasted: nat
    ghost var calls: nat

    constructor (inner: InstrumentedDevice)
      ensures this.inner == inner && Shared() == InitState(1).ahead
    {
      this.inner := inner;
      window, windowStart, windowServed, hasLast, lastEnd := [], 0, 0, false, 0;
      hits, misses, prefetches, prefetched, servedFromWindow, wasted := 0, 0, 0, 0, 0, 0;
      calls := 0;
    }

    ghost function Shared(): Ahead
      reads this
    {
      Ahead(window, windowStart, windowServed, hasLast, lastEnd,
            calls, hits, misses, prefetches, prefetched, servedFromWindow, wasted)
    }

    ghost predicate At(s0: State, cache: Cache, t: Thread)
      reads this, inner
    {
      Runs(inner.src, s0, State(cache, Shared(), inner.Shared(), [t]))
    }

    ghost predicate Doing(s0: State, cache: Cache, c: CacheFrame, a: AheadFrame)
      reads this, inner
    {
      At(s0, cache, InAhead(c, a))
    }

    lemma Step(s0: State, cache: Cache, c: CacheFrame, a: AheadFrame)
      requires Doing(s0, cache, c, a) && a.off <= |inner.src.bytes|
      ensures var r := AheadMove(inner.src, Shared(), c, a);
        var meter := if r.1.InMeter? then inner.Shared().(calls := inner.calls + 1) else inner.Shared();
        Runs(inner.src, s0, State(cache, r.0, meter, [r.1]))
    {
      hide AheadMove, Runs;
      AheadStep(inner.src, s0, State(cache, Shared(), inner.Shared(), [InAhead(c, a)]), c, a);
    }

    method ObserveRequest(off: nat, len: nat)
      modifies this`hasLast, this`lastEnd
      ensures Shared() == Observe(old(Shared()), off, len)
    {
      hasLast := true;
      lastEnd := off + len;
    }

    method ResetRequests()
      modifies this`hasLast, this`lastEnd
      ensures Shared() == ResetSequence(old(Shared()))
    {
      hasLast := false;
      lastEnd := 0;
    }

    method AccountWindow()
      modifies this`wasted
      ensures Shared() == AccountOldWindow(old(Shared()))
    {
      if window == [] {
        return;
      }
      var served := Min(windowServed, |window|);
      wasted := wasted + (|window| - served);
    }

    /** Forgets the window and the sequence; what nobody was served counts as wasted. */
    method Clear()
      modifies this
      ensures Shared() == ClearAhead(old(Shared()))
    {
      AccountWindow();
      window := [];
      windowStart := 0;
      windowServed := 0;
      ResetRequests();
    }

    /** Passes a request on to the instrumentation. */
    method ReadInner(off: nat, len: nat, ghost s0: State, ghost cache: Cache, ghost c: CacheFrame, ghost a: AheadFrame)
      returns (result: Result)
      requires InRange(inner.src, off, len)
      requires Runs(inner.src, s0, State(cache, Shared(), inner.Shared().(calls := inner.calls + 1),
                                         [InMeter(c, a, MeterFrame(off, len, MCount))]))
      modifies inner
      ensures At(s0, cache, AheadResume(c, a, result))
      ensures result.Data? ==> |result.bytes| == len
    {
      hide Runs, AheadResume;
      inner.calls := inner.calls + 1;
      result := inner.Read(off, len, Caller(s0, cache, Shared(), c, a));
    }

    method Read(off: nat, len: nat, ghost s0: State, ghost cache: Cache, ghost c: CacheFrame) returns (result: Result)
      requires InRange(inner.src, off, len) && len > 0 ==> Doing(s0, cache, c, AheadFrame(off, len, ALookup))
      modifies this, inner
      ensures !InRange(inner.src, off, len) ==> result == Fail
      ensures InRange(inner.src, off, len) && len == 0 ==> result == Data([])
      ensures InRange(inner.src, off, len) && len > 0 ==> At(s0, cache, CacheResume(c, result))
    {
      hide Runs, MeterMove;
      var size := |inner.src.bytes|;
      if off > size || len > size - off {
        return Fail;
      }
      if len == 0 {
        return Data([]);
      }
      if window != [] && off >= windowStart {
        var relative := off - windowStart;
        if relative <= |window| && len <= |window| - relative {
          result := ServeFromWindow(off, len, relative, s0, cache, c);
          return;
        }
      }
      Step(s0, cache, c, AheadFrame(off, len, ALookup));
      Step(s0, cache, c, AheadFrame(off, len, AMiss));
      misses := misses + 1;
      if len < TRIGGER_BYTES {
        result := ReadSmall(off, len, s0, cache, c);
        return;
      }
      Step(s0, cache, c, AheadFrame(off, len, ASeqCheck));
      if hasLast && off == lastEnd {
        result := ReadWithPrefetch(off, len, s0, cache, c);
      } else {
        result := ReadLarge(off, len, s0, cache, c);
      }
    }

    method ServeFromWindow(off: nat, len: nat, relative: nat, ghost s0: State, ghost cache: Cache, ghost c: CacheFrame)
      returns (result: Result)
      requires InRange(inner.src, off, len) && Doing(s0, cache, c, AheadFrame(off, len, ALookup))
      requires WindowHolds(Shared(), off, len) && relative == off - windowStart
      modifies this
      ensures At(s0, cache, CacheResume(c, result))
    {
      hide Runs, MeterMove;
      ghost var meter := inner.Shared();
      Step(s0, cache, c, AheadFrame(off, len, ALookup));
      result := Data(window[relative..relative + len]);
      hits := hits + 1;
      servedFromWindow := servedFromWindow + len;
      windowServed := windowServed + len;
      ObserveRequest(off, len);
      assert inner.Shared() == meter;
    }

    method ReadSmall(off: nat, len: nat, ghost s0: State, ghost cache: Cache, ghost c: CacheFrame)
      returns (result: Result)
      requires InRange(inner.src, off, len) && Doing(s0, cache, c, AheadFrame(off, len, ASmallCall))
      modifies this, inner
      ensures At(s0, cache, CacheResume(c, result))
    {
      hide Runs, MeterMove;
      Step(s0, cache, c, AheadFrame(off, len, ASmallCall));
      result := ReadInner(off, len, s0, cache, c, AheadFrame(off, len, ASmallWait));
      if result != Fail {
        Step(s0, cache, c, AheadFrame(off, len, AReset(result.bytes)));
        ghost var meter := inner.Shared();
        ResetRequests();
        assert inner.Shared() == meter;
      }
    }

    method ReadLarge(off: nat, len: nat, ghost s0: State, ghost cache: Cache, ghost c: CacheFrame)
      returns (result: Result)
      requires InRange(inner.src, off, len) && Doing(s0, cache, c, AheadFrame(off, len, ALargeCall))
      modifies this, inner
      ensures At(s0, cache, CacheResume(c, result))
    {
      hide Runs, MeterMove;
      Step(s0, cache, c, AheadFrame(off, len, ALargeCall));
      result := ReadInner(off, len, s0, cache, c, AheadFrame(off, len, ALargeWait));
      if result != Fail {
        Step(s0, cache, c, AheadFrame(off, len, AObserve(result.bytes)));
        ghost var meter := inner.Shared();
        ObserveRequest(off, len);
        assert inner.Shared() == meter;
      }
    }

    method ReadWithPrefetch(off: nat, len: nat, ghost s0: State, ghost cache: Cache, ghost c: CacheFrame)
      returns (result: Result)
      requires InRange(inner.src, off, len) && Doing(s0, cache, c, AheadFrame(off, len, APrefetchCall))
      modifies this, inner
      ensures At(s0, cache, CacheResume(c, result))
    {
      hide Runs, MeterMove;
      Step(s0, cache, c, AheadFrame(off, len, APrefetchCall));
      var available := |inner.src.bytes| - off;
      var total := Min(available, len + LOOK_AHEAD_BYTES);
      var read := ReadInner(off, total, s0, cache, c, AheadFrame(off, len, APrefetchWait));
      if read == Fail {
        return Fail;
      }
      CountPrefetch(off, len, read.bytes, s0, cache, c);
      result := InstallWindow(off, len, read.bytes, s0, cache, c);
    }

    method CountPrefetch(off: nat, len: nat, loaded: seq<Byte>, ghost s0: State, ghost cache: Cache,
                         ghost c: CacheFrame)
      requires len <= |loaded| && off <= |inner.src.bytes|
      requires Doing(s0, cache, c, AheadFrame(off, len, ACountPrefetch(loaded)))
      modifies this`prefetches, this`prefetched
      ensures Doing(s0, cache, c, AheadFrame(off, len, AInstall(loaded)))
    {
      hide Runs;
      ghost var meter := inner.Shared();
      Step(s0, cache, c, AheadFrame(off, len, ACountPrefetch(loaded)));
      prefetches := prefetches + 1;
      assert inner.Shared() == meter;
      Step(s0, cache, c, AheadFrame(off, len, ACountBytes(loaded)));
      prefetched := prefetched + (|loaded| - len);
      assert inner.Shared() == meter;
    }

    method InstallWindow(off: nat, len: nat, loaded: seq<Byte>, ghost s0: State, ghost cache: Cache,
                         ghost c: CacheFrame)
      returns (result: Result)
      requires len <= |loaded| && off <= |inner.src.bytes|
      requires Doing(s0, cache, c, AheadFrame(off, len, AInstall(loaded)))
      modifies this
      ensures At(s0, cache, CacheResume(c, result))
    {
      hide Runs;
      ghost var meter := inner.Shared();
      Step(s0, cache, c, AheadFrame(off, len, AInstall(loaded)));
      result := Data(loaded[..len]);
      AccountWindow();
      windowStart := off;
      window := loaded;
      windowServed := len;
      ObserveRequest(off, len);
      assert inner.Shared() == meter;
    }
  }

  // ---- the page cache ----

  class ReadCacheDevice {
    const inner: ReadAheadDevice
    var pages: map<nat, seq<Byte>>
    var hits: nat
    var misses: nat
    var evictions: nat
    var bypassReads: nat
    ghost var calls: nat
    /** What the last call came to. */
    ghost var last: Thread

    constructor (inner: ReadAheadDevice)
      requires inner.Shared() == InitState(1).ahead && inner.inner.Shared() == InitState(1).meter
      ensures this.inner == inner && Valid()
    {
      hide Inv;
      this.inner := inner;
      pages := map[];
      hits, misses, evictions, bypassReads, calls := 0, 0, 0, 0, 0;
      last := Idle;
      new;
      InitInv(Src(), 1);
      assert InitState(1).threads == [Idle];
      assert Whole(Idle) == InitState(1);
    }

    ghost function Src(): Source {
      inner.inner.src
    }

    ghost function Shared(): Cache
      reads this
    {
      Cache(pages, calls, hits, misses, evictions, bypassReads)
    }

    ghost function Whole(t: Thread): State
      reads this, inner, inner.inner
    {
      State(Shared(), inner.Shared(), inner.inner.Shared(), [t])
    }

    /** The three objects are in a state the machine's invariants describe, with no call under way. */
    ghost predicate Valid()
      reads this, inner, inner.inner
    {
      (last.Idle? || last.Done?) && Inv(Src(), Whole(last))
    }

    ghost predicate At(s0: State, t: Thread)
      reads this, inner, inner.inner
    {
      Runs(Src(), s0, Whole(t))
    }

    lemma Step(s0: State, c: CacheFrame, victim: nat)
      requires At(s0, InCache(c)) && PageStart(c.off) <= |Src().bytes|
      requires c.pc.CInsert? && pages != map[] ==> victim in pages
      ensures var r := CacheMove(Src(), Shared(), c, victim);
        var ahead := if r.1.InAhead? then inner.Shared().(calls := inner.calls + 1) else inner.Shared();
        Runs(Src(), s0, State(r.0, ahead, inner.inner.Shared(), [r.1]))
    {
      hide CacheMove, Runs, PageStart;
      CacheStep(Src(), s0, Whole(InCache(c)), c, victim);
    }

    /** Passes a request on to the read-ahead layer. */
    method ReadInner(off: nat, len: nat, ghost s0: State, ghost c: CacheFrame) returns (result: Result)
      requires InRange(Src(), off, len) && len > 0
      requires Runs(Src(), s0, State(Shared(), inner.Shared().(calls := inner.calls + 1), inner.inner.Shared(),
                                     [InAhead(c, AheadFrame(off, len, ALookup))]))
      modifies inner, inner.inner
      ensures At(s0, CacheResume(c, result))
    {
      hide Runs, CacheResume;
      inner.calls := inner.calls + 1;
      result := inner.Read(off, len, s0, Shared(), c);
    }

    method Clear()
      requires Valid()
      modifies this
      ensures Valid() && pages == map[] && Shared() == old(Shared()).(pages := map[])
    {
      hide Inv;
      ghost var before := Whole(last);
      pages := map[];
      assert Whole(last) == Apply(Src(), before, ClearPages);
      ActionKeepsInv(Src(), before, ClearPages);
    }

    /** Forgets the read-ahead window below. */
    method ClearWindow()
      requires Valid()
      modifies inner
      ensures Valid() && inner.Shared() == ClearAhead(old(inner.Shared()))
    {
      hide Inv;
      ghost var before := Whole(last);
      inner.Clear();
      assert Whole(last) == Apply(Src(), before, CacheStack.ClearWindow);
      ActionKeepsInv(Src(), before, CacheStack.ClearWindow);
    }

    method ReadDirect(off: nat, len: nat, ghost s0: State) returns (result: Result)
      requires InRange(Src(), off, len) && len > 0 && At(s0, InCache(CacheFrame(off, len, CBypass)))
      modifies this, inner, inner.inner
      ensures At(s0, Done(off, len, result)) && last == old(last)
    {
      hide Runs, GoesDirect, PageStart, PageIndex, PageValid;
      ghost var ahead, meter := inner.Shared(), inner.inner.Shared();
      PageFacts(Src(), off, len);
      Step(s0, CacheFrame(off, len, CBypass), 0);
      bypassReads := bypassReads + 1;
      assert inner.Shared() == ahead && inner.inner.Shared() == meter;
      Step(s0, CacheFrame(off, len, CBypassCall), 0);
      result := ReadInner(off, len, s0, CacheFrame(off, len, CBypassWait));
    }

    method ReadPage(off: nat, len: nat, ghost s0: State) returns (result: Result)
      requires InRange(Src(), off, len) && len > 0 && !GoesDirect(off, len)
      requires At(s0, InCache(CacheFrame(off, len, CLookup)))
      modifies this, inner, inner.inner
      ensures At(s0, Done(off, len, result)) && last == old(last)
    {
      hide Runs, GoesDirect, PageStart, PageIndex, PageValid;
      ghost var ahead, meter := inner.Shared(), inner.inner.Shared();
      PageFacts(Src(), off, len);
      var pageStart, pageIndex := PageStart(off), PageIndex(off);
      var inPage := off - pageStart;
      Step(s0, CacheFrame(off, len, CLookup), 0);
      if pageIndex in pages && inPage + len <= |pages[pageIndex]| {
        result := Data(pages[pageIndex][inPage..inPage + len]);
        hits := hits + 1;
        assert inner.Shared() == ahead && inner.inner.Shared() == meter;
        return;
      }
      Step(s0, CacheFrame(off, len, CMiss), 0);
      misses := misses + 1;
      assert inner.Shared() == ahead && inner.inner.Shared() == meter;
      Step(s0, CacheFrame(off, len, CFillCall), 0);
      var valid := PageValid(inner.inner.src, pageStart);
      var loaded := ReadInner(pageStart, valid, s0, CacheFrame(off, len, CFillWait));
      if loaded == Fail || inPage + len > |loaded.bytes| {
        return Fail;
      }
      result := InsertPage(off, len, pageIndex, inPage, loaded.bytes, s0);
    }

    method InsertPage(off: nat, len: nat, pageIndex: nat, inPage: nat, page: seq<Byte>, ghost s0: State)
      returns (result: Result)
      requires inPage + len <= |page| && PageStart(off) <= |Src().bytes|
      requires pageIndex == PageIndex(off) && inPage == off - PageStart(off)
      requires At(s0, InCache(CacheFrame(off, len, CInsert(page))))
      modifies this
      ensures At(s0, Done(off, len, result)) && last == old(last)
    {
      hide Runs, GoesDirect, PageStart, PageIndex, PageValid;
      ghost var ahead, meter := inner.Shared(), inner.inner.Shared();
      result := Data(page[inPage..inPage + len]);
      var victim: nat := 0;
      if pages != map[] {
        victim :| victim in pages;
      }
      Step(s0, CacheFrame(off, len, CInsert(page)), victim);
      if pageIndex !in pages && |pages| >= MAX_PAGES && pages != map[] {
        pages := pages - {victim};
        evictions := evictions + 1;
      }
      pages := pages[pageIndex := page];
      assert inner.Shared() == ahead && inner.inner.Shared() == meter;
    }

    /** From `before`, the machine's own read call leads here. */
    ghost predicate Ran(before: State, off: nat, len: nat)
      reads this, inner, inner.inner
    {
      Enabled(Src(), before, Begin(0, off, len)) && Runs(Src(), Apply(Src(), before, Begin(0, off, len)), Whole(last))
    }

    /** Delivers exactly the requested bytes, and does so whenever the device can. */
    method Read(off: nat, len: nat) returns (result: Result)
      requires Valid()
      modifies this, inner, inner.inner
      ensures Valid() && last == Done(off, len, result)
      ensures ResultOk(Src(), off, len, result)
      ensures Ran(old(Whole(last)), off, len)
    {
      hide Inv, Runs, CacheMove;
      ghost var src, before := Src(), Whole(last);
      ghost var began := BeginRead(src, off, len);
      BeginOk(src, off, len);
      ActionKeepsInv(src, before, Begin(0, off, len));
      RunsNowhere(src, Apply(src, before, Begin(0, off, len)));
      var size := |inner.inner.src.bytes|;
      if off > size || len > size - off {
        result := Fail;
        assert Whole(Done(off, len, result)) == Apply(src, before, Begin(0, off, len));
      } else if len == 0 {
        result := Data([]);
        assert Whole(Done(off, len, result)) == Apply(src, before, Begin(0, off, len));
      } else {
        calls := calls + 1;
        ghost var s0 := Whole(began);
        assert s0 == Apply(src, before, Begin(0, off, len));
        assert Inv(src, s0);
        if GoesDirect(off, len) {
          result := ReadDirect(off, len, s0);
        } else {
          result := ReadPage(off, len, s0);
        }
        RunsKeepInv(src, s0, Whole(Done(off, len, result)));
      }
      ghost var end := Whole(Done(off, len, result));
      assert Inv(src, end);
      last := Done(off, len, result);
      assert Whole(last) == end;
      FinishedOk(src, Whole(last), off, len, result);
    }
  }
}
