/**
 * What sets off a prefetch, over whole runs of the pipeline: `read_ahead_block_device.hpp`. The
 * window's sequence state is read back from the run's history, so nothing is remembered beyond what
 * the code remembers.
 */
module ReadAheadHistory {
  import opened Bytes
  import opened CacheStack

  // ---- what the read-ahead layer does to its sequence state ----

  /** How a read that set the sequence state was served. */
  datatype Served = FromWindow | FromDevice | WithPrefetch

  datatype Event = Quiet | Observed(read: Request, served: Served) | SmallMiss | Cleared

  function AheadEvent(sh: Ahead, a: AheadFrame): Event {
    match a.pc
    case ALookup => if WindowHolds(sh, a.off, a.len) then Observed(Request(a.off, a.len), FromWindow) else Quiet
    case AReset(_) => SmallMiss
    case AObserve(_) => Observed(Request(a.off, a.len), FromDevice)
    case AInstall(_) => Observed(Request(a.off, a.len), WithPrefetch)
    case _ => Quiet
  }

  function EventOf(s: State, act: Action): Event {
    match act
    case ClearWindow => Cleared
    case Move(t, _) =>
      if t < |s.threads| && s.threads[t].InAhead? then AheadEvent(s.ahead, s.threads[t].a) else Quiet
    case _ => Quiet
  }

  /** What action `j` of a run did. */
  function EventAt(src: Source, n: nat, acts: seq<Action>, j: nat): Event
    requires j < |acts|
  {
    match After(src, n, acts[..j])
    case None => Quiet
    case Some(s) => EventOf(s, acts[j])
  }

  lemma {:induction false} AfterPrefix(src: Source, n: nat, acts: seq<Action>, j: nat)
    requires After(src, n, acts).Some? && j <= |acts|
    ensures After(src, n, acts[..j]).Some?
    ensures j < |acts| ==> Enabled(src, After(src, n, acts[..j]).value, acts[j])
    decreases |acts|
  {
    hide Enabled, Apply, InitState;
    if j == |acts| {
      assert acts[..j] == acts;
    } else if j < |acts| - 1 {
      AfterPrefix(src, n, acts[..|acts| - 1], j);
      assert acts[..|acts| - 1][..j] == acts[..j];
    }
  }

  lemma AfterSnoc(src: Source, n: nat, acts: seq<Action>, act: Action)
    requires After(src, n, acts).Some? && Enabled(src, After(src, n, acts).value, act)
    ensures After(src, n, acts + [act]) == Some(Apply(src, After(src, n, acts).value, act))
    ensures EventAt(src, n, acts + [act], |acts|) == EventOf(After(src, n, acts).value, act)
    ensures forall j: nat :: j < |acts| ==> EventAt(src, n, acts + [act], j) == EventAt(src, n, acts, j)
  {
    hide Enabled, Apply, After, EventOf;
    AfterUnfold(src, n, acts + [act]);
    assert (acts + [act])[..|acts|] == acts;
    forall j: nat | j < |acts| ensures EventAt(src, n, acts + [act], j) == EventAt(src, n, acts, j) {
      assert (acts + [act])[..j] == acts[..j];
    }
  }

  lemma {:induction false} AfterUnfold(src: Source, n: nat, acts: seq<Action>)
    requires acts != []
    ensures After(src, n, acts) ==
      match After(src, n, acts[..|acts| - 1])
      case None => None
      case Some(s) => if Enabled(src, s, acts[|acts| - 1]) then Some(Apply(src, s, acts[|acts| - 1])) else None
  {
  }

  predicate SameWindow(a: Ahead, b: Ahead) {
    a.window == b.window && a.start == b.start
  }

  /** The window layer's move and its event say the same about the sequence state and the window. */
  lemma AheadMoveEvent(src: Source, sh: Ahead, c: CacheFrame, a: AheadFrame)
    requires a.off <= |src.bytes|
    ensures var sh' := AheadMove(src, sh, c, a).0;
      match AheadEvent(sh, a)
      case Quiet => sh'.hasLast == sh.hasLast && sh'.lastEnd == sh.lastEnd && SameWindow(sh, sh')
      case Observed(r, served) =>
        sh'.hasLast && sh'.lastEnd == r.off + r.len && (served != WithPrefetch ==> SameWindow(sh, sh'))
      case SmallMiss => !sh'.hasLast && SameWindow(sh, sh')
      case Cleared => false
  {
    hide PageStart, PageIndex, PageValid, GoesDirect, CacheResume;
  }

  lemma ActionEvent(src: Source, s: State, act: Action)
    requires Enabled(src, s, act)
    ensures var sh, sh' := s.ahead, Apply(src, s, act).ahead;
      match EventOf(s, act)
      case Quiet => sh'.hasLast == sh.hasLast && sh'.lastEnd == sh.lastEnd && SameWindow(sh, sh')
      case Observed(r, served) =>
        sh'.hasLast && sh'.lastEnd == r.off + r.len && (served != WithPrefetch ==> SameWindow(sh, sh'))
      case SmallMiss => !sh'.hasLast && SameWindow(sh, sh')
      case Cleared => !sh'.hasLast && sh'.window == []
  {
    hide CacheMove, AheadMove, MeterMove, BeginRead, PageStart, AheadEvent;
    match act
    case Move(t, choice) =>
      if s.threads[t].InAhead? {
        AheadMoveEvent(src, s.ahead, s.threads[t].c, s.threads[t].a);
      }
    case _ =>
  }

  // ---- the sequence state is the last event ----

  /** Action `j` served `r`, and nothing after it touched the sequence state: no read has succeeded since. */
  ghost predicate ArmedBy(src: Source, n: nat, acts: seq<Action>, j: nat, r: Request, served: Served) {
    && j < |acts| && EventAt(src, n, acts, j) == Observed(r, served)
    && forall k: nat :: j < k < |acts| ==> EventAt(src, n, acts, k) == Quiet
  }

  ghost predicate Armed(src: Source, n: nat, acts: seq<Action>, r: Request) {
    exists j, served :: ArmedBy(src, n, acts, j, r, served)
  }

  lemma {:induction false} ArmedSnoc(src: Source, n: nat, acts: seq<Action>, act: Action, r: Request)
    requires After(src, n, acts).Some? && Enabled(src, After(src, n, acts).value, act)
    ensures var event := EventOf(After(src, n, acts).value, act);
      Armed(src, n, acts + [act], r) <==>
        (event.Observed? && event.read == r) || (event == Quiet && Armed(src, n, acts, r))
  {
    hide After, Enabled, Apply, EventAt, EventOf;
    AfterSnoc(src, n, acts, act);
    var event, all := EventOf(After(src, n, acts).value, act), acts + [act];
    if event.Observed? && event.read == r {
      assert ArmedBy(src, n, all, |acts|, r, event.served);
    }
    if event == Quiet && Armed(src, n, acts, r) {
      var j: nat, served :| ArmedBy(src, n, acts, j, r, served);
      assert ArmedBy(src, n, all, j, r, served);
    }
    if Armed(src, n, all, r) {
      var j: nat, served :| ArmedBy(src, n, all, j, r, served);
      assert EventAt(src, n, all, |acts|) == event;
      if j < |acts| {
        assert ArmedBy(src, n, acts, j, r, served);
      }
    }
  }

  /**
   * After any run the layer remembers a request exactly when some read succeeded through it and,
   * since the last one that did, no smaller miss completed and nothing cleared it; what it remembers
   * is where that read ended.
   */
  lemma {:induction false} SequenceIsHistory(src: Source, n: nat, acts: seq<Action>)
    requires After(src, n, acts).Some?
    ensures var sh := After(src, n, acts).value.ahead;
      && (sh.hasLast <==> exists r :: Armed(src, n, acts, r))
      && (forall r :: Armed(src, n, acts, r) ==> sh.lastEnd == r.off + r.len)
  {
    hide After, Enabled, Apply, Armed, EventOf;
    if acts == [] {
      AtStart(src, n);
    } else {
      var front, last := acts[..|acts| - 1], acts[|acts| - 1];
      AfterPrefix(src, n, acts, |front|);
      assert acts == front + [last];
      SequenceIsHistory(src, n, front);
      var s := After(src, n, front).value;
      AfterSnoc(src, n, front, last);
      ActionEvent(src, s, last);
      forall r ensures Armed(src, n, acts, r) <==>
        (EventOf(s, last).Observed? && EventOf(s, last).read == r)
        || (EventOf(s, last) == Quiet && Armed(src, n, front, r))
      {
        ArmedSnoc(src, n, front, last, r);
      }
      if EventOf(s, last).Observed? {
        assert Armed(src, n, acts, EventOf(s, last).read);
      }
    }
  }

  lemma {:induction false} AtStart(src: Source, n: nat)
    ensures After(src, n, []) == Some(InitState(n)) && forall r :: !Armed(src, n, [], r)
  {
  }

  // ---- prefetch decisions ----

  /** The action takes its thread, with the read `r` in hand, to a prefetch. */
  predicate Decides(src: Source, s: State, act: Action, r: Request) {
    && act.Move? && Enabled(src, s, act) && s.threads[act.thread].InAhead?
    && var a, next := s.threads[act.thread].a, Apply(src, s, act).threads[act.thread];
       r == Request(a.off, a.len) && next.InAhead? && next.a == a.(pc := APrefetchCall)
  }

  /** That is the sequence check finding that the read starts where the remembered one ended. */
  predicate Continues(src: Source, s: State, act: Action, r: Request) {
    && act.Move? && Enabled(src, s, act) && s.threads[act.thread].InAhead?
    && var a := s.threads[act.thread].a;
       r == Request(a.off, a.len) && a.pc == ASeqCheck && s.ahead.hasLast && s.ahead.lastEnd == a.off
  }

  lemma DecidesIffContinues(src: Source, s: State, act: Action, r: Request)
    ensures Decides(src, s, act, r) <==> Continues(src, s, act, r)
  {
    hide CacheMove, MeterMove;
  }

  /** No window has been installed since `c`, which is the start or just after a clear. */
  ghost predicate FreshSince(src: Source, n: nat, acts: seq<Action>, c: nat) {
    && c <= |acts| && (c == 0 || acts[c - 1] == ClearWindow)
    && forall i: nat :: c <= i < |acts| ==>
      !(EventAt(src, n, acts, i).Observed? && EventAt(src, n, acts, i).served == WithPrefetch)
  }

  lemma {:induction false} FreshHasNoWindow(src: Source, n: nat, acts: seq<Action>, c: nat, j: nat)
    requires After(src, n, acts).Some? && FreshSince(src, n, acts, c) && c <= j <= |acts|
    ensures After(src, n, acts[..j]).Some? && After(src, n, acts[..j]).value.ahead.window == []
    decreases j
  {
    hide After, Enabled, Apply, EventOf;
    AfterPrefix(src, n, acts, j);
    if j == 0 {
      AtStart(src, n);
      assert acts[..0] == [];
    } else {
      var front := acts[..j - 1];
      AfterPrefix(src, n, acts, j - 1);
      assert acts[..j] == front + [acts[j - 1]];
      AfterSnoc(src, n, front, acts[j - 1]);
      ActionEvent(src, After(src, n, front).value, acts[j - 1]);
      if j > c {
        FreshHasNoWindow(src, n, acts, c, j - 1);
        assert EventAt(src, n, acts, j - 1) == EventOf(After(src, n, front).value, acts[j - 1]);
      } else {
        ClearIsCleared(After(src, n, front).value);
      }
    }
  }

  lemma ClearIsCleared(s: State)
    ensures EventOf(s, ClearWindow) == Cleared
  {
  }

  /** A read that set the sequence state delivered its bytes; only a window hit can have been small. */
  lemma {:induction false} ObservedRead(src: Source, n: nat, acts: seq<Action>, j: nat)
    requires After(src, n, acts).Some? && j < |acts| && EventAt(src, n, acts, j).Observed?
    ensures var r, served := EventAt(src, n, acts, j).read, EventAt(src, n, acts, j).served;
      && r.len > 0 && InRange(src, r.off, r.len)
      && (served != FromWindow ==> r.len >= TRIGGER_BYTES)
      && (served == FromWindow ==> After(src, n, acts[..j]).Some? && After(src, n, acts[..j]).value.ahead.window != [])
    ensures After(src, n, acts[..j]).Some? && acts[j].Move? &&
      var s, t, read := After(src, n, acts[..j]).value, acts[j].thread, EventAt(src, n, acts, j).read;
      t < |s.threads| && s.threads[t].InAhead? && Enabled(src, s, acts[j]) &&
      Apply(src, s, acts[j]).threads[t] == CacheResume(s.threads[t].c, Data(Slice(src, read.off, read.len)))
  {
    hide After, CacheFrameOk, CacheInner, CacheMove, MeterMove, PagesOk, AheadMove, CacheResume;
    AfterPrefix(src, n, acts, j);
    StackReturnsSourceBytes(src, n, acts[..j]);
    var s := After(src, n, acts[..j]).value;
    var t := acts[j].thread;
    assert ThreadOk(src, s.threads[t]);
    ObservedMove(src, s.ahead, s.threads[t].c, s.threads[t].a);
  }

  lemma ObservedMove(src: Source, sh: Ahead, c: CacheFrame, a: AheadFrame)
    requires ThreadOk(src, InAhead(c, a)) && WindowOk(src, sh.start, sh.window) && AheadEvent(sh, a).Observed?
    ensures AheadMove(src, sh, c, a).1 == CacheResume(c, Data(Slice(src, a.off, a.len)))
  {
    hide CacheFrameOk, CacheInner, CacheResume;
    match a.pc
    case ALookup => SubSlice(src, sh.start, |sh.window|, sh.window, a.off, a.len);
    case AInstall(loaded) =>
      SubSlice(src, a.off, |loaded|, loaded, a.off, a.len);
      assert loaded[0..a.len] == loaded[..a.len];
    case _ =>
  }

  /**
   * In every run, a prefetch is decided only for a read of at least 32 KiB that starts exactly where
   * an earlier successful read ended, and since that one no read has succeeded in this layer, small
   * or large, and nothing was cleared. It asks for at most 256 KiB more than the read and for
   * nothing beyond the device. As long as no window has been installed since the start or a clear,
   * the earlier read came after that point and was itself at least 32 KiB; in general it was at
   * least 32 KiB unless it was a window hit.
   */
  lemma {:induction false} PrefetchHistory(src: Source, n: nat, acts: seq<Action>, act: Action, r: Request)
    requires After(src, n, acts).Some? && Decides(src, After(src, n, acts).value, act, r)
    ensures exists earlier :: Armed(src, n, acts, earlier)
    ensures forall earlier :: Armed(src, n, acts, earlier) ==> earlier.off + earlier.len == r.off
    ensures forall j, earlier, served, c :: ArmedBy(src, n, acts, j, earlier, served) && FreshSince(src, n, acts, c) ==>
      c <= j && served == FromDevice && earlier.len >= TRIGGER_BYTES
    ensures forall j, earlier, served :: ArmedBy(src, n, acts, j, earlier, served) ==>
      (earlier.len < TRIGGER_BYTES ==> served == FromWindow)
    ensures r.len >= TRIGGER_BYTES && r.off <= |src.bytes| && InRange(src, r.off, PrefetchTotal(src, r.off, r.len))
    ensures r.len <= PrefetchTotal(src, r.off, r.len) <= r.len + LOOK_AHEAD_BYTES
  {
    hide After, EventAt, CacheFrameOk, CacheInner, PagesOk, FreshSince, WindowOk, Decides;
    DecidesIffContinues(src, After(src, n, acts).value, act, r);
    SequenceIsHistory(src, n, acts);
    StackReturnsSourceBytes(src, n, acts);
    assert ThreadOk(src, After(src, n, acts).value.threads[act.thread]);
    forall j, earlier, served | ArmedBy(src, n, acts, j, earlier, served)
      ensures (earlier.len < TRIGGER_BYTES ==> served == FromWindow) && Armed(src, n, acts, earlier)
    {
      ObservedRead(src, n, acts, j);
      assert Armed(src, n, acts, earlier);
    }
    forall j, earlier, served, c | ArmedBy(src, n, acts, j, earlier, served) && FreshSince(src, n, acts, c)
      ensures c <= j && served == FromDevice && earlier.len >= TRIGGER_BYTES
    {
      FreshArm(src, n, acts, j, earlier, served, c);
    }
  }

  lemma {:induction false} FreshArm(src: Source, n: nat, acts: seq<Action>, j: nat, r: Request, served: Served, c: nat)
    requires After(src, n, acts).Some? && ArmedBy(src, n, acts, j, r, served) && FreshSince(src, n, acts, c)
    ensures c <= j && served == FromDevice && r.len >= TRIGGER_BYTES
  {
    hide After, EventOf, AheadEvent;
    ObservedRead(src, n, acts, j);
    if c > 0 {
      AfterPrefix(src, n, acts, c - 1);
      ClearIsCleared(After(src, n, acts[..c - 1]).value);
      assert EventAt(src, n, acts, c - 1) == Cleared;
    }
    FreshHasNoWindow(src, n, acts, c, j);
  }

  // ---- when the rule of two consecutive large reads holds ----

  /** Whatever the run, a prefetch is set off by a read of at least 32 KiB after another of at least 32 KiB. */
  ghost predicate TwoLargeReads(src: Source, n: nat) {
    forall acts, act, r, earlier :: SetOff(src, n, acts, act, r, earlier) ==>
      r.len >= TRIGGER_BYTES && earlier.len >= TRIGGER_BYTES
  }

  /** At the end of a run the read `r` is about to prefetch because `earlier` ended where it starts. */
  ghost predicate SetOff(src: Source, n: nat, acts: seq<Action>, act: Action, r: Request, earlier: Request) {
    && After(src, n, acts).Some?
    && Decides(src, After(src, n, acts).value, act, r) && Armed(src, n, acts, earlier)
  }

  /** Past the decision to prefetch. */
  predicate Prefetching(t: Thread) {
    && (t.InAhead? || t.InMeter?)
    && (t.a.pc in {APrefetchCall, APrefetchWait} || t.a.pc.ACountPrefetch? || t.a.pc.ACountBytes? || t.a.pc.AInstall?)
  }

  /** Nothing the window or the sequence state knows of lies in the first 32 KiB. */
  ghost predicate FarIn(s: State) {
    && (s.ahead.window != [] ==> s.ahead.start >= TRIGGER_BYTES)
    && (s.ahead.hasLast ==> s.ahead.lastEnd >= TRIGGER_BYTES)
    && forall t :: 0 <= t < |s.threads| && Prefetching(s.threads[t]) ==> s.threads[t].a.off >= TRIGGER_BYTES
  }

  lemma AheadFarIn(src: Source, sh: Ahead, c: CacheFrame, a: AheadFrame)
    requires a.off <= |src.bytes| && ThreadOk(src, InAhead(c, a))
    requires sh.window != [] ==> sh.start >= TRIGGER_BYTES
    requires sh.hasLast ==> sh.lastEnd >= TRIGGER_BYTES
    requires Prefetching(InAhead(c, a)) ==> a.off >= TRIGGER_BYTES
    ensures var r := AheadMove(src, sh, c, a);
      && (r.0.window != [] ==> r.0.start >= TRIGGER_BYTES) && (r.0.hasLast ==> r.0.lastEnd >= TRIGGER_BYTES)
      && (Prefetching(r.1) ==> r.1.a.off >= TRIGGER_BYTES)
  {
    hide PageStart, PageIndex, PageValid, GoesDirect, CacheFrameOk, CacheInner;
  }

  lemma MeterFarIn(src: Source, sh: Meter, c: CacheFrame, a: AheadFrame, m: MeterFrame, choice: Choice)
    requires InRange(src, m.off, m.len)
    ensures var t := MeterMove(src, sh, c, a, m, choice).1;
      Prefetching(t) ==>
        t.a.off == a.off && (Prefetching(InMeter(c, a, m)) || a.pc !in {ASmallWait, ALargeWait, APrefetchWait})
  {
    hide CacheResume, Slice;
    CacheResumeCounts(c, Fail);
  }

  lemma FarInKept(src: Source, s: State, act: Action)
    requires FarIn(s) && DataInv(src, s) && Enabled(src, s, act)
    ensures FarIn(Apply(src, s, act))
  {
    hide ThreadOk, CacheMove, AheadMove, MeterMove, PagesOk, WindowOk, GoesDirect, Prefetching;
    match act
    case Begin(t, off, len) => BeginFarIn(src, off, len);
    case Move(t, choice) =>
      assert ThreadOk(src, s.threads[t]);
      MoveFarIn(src, s, t, choice);
    case _ =>
  }

  lemma BeginFarIn(src: Source, off: nat, len: nat)
    ensures !Prefetching(BeginRead(src, off, len))
  {
    hide GoesDirect;
  }

  lemma MoveFarIn(src: Source, s: State, t: nat, choice: Choice)
    requires FarIn(s) && t < |s.threads| && ThreadOk(src, s.threads[t]) && Enabled(src, s, Move(t, choice))
    ensures FarIn(Apply(src, s, Move(t, choice)))
  {
    hide CacheMove, AheadMove, MeterMove, Prefetching, CacheFrameOk, AheadFrameOk, CacheInner, AheadInner, ResultOk;
    match s.threads[t]
    case InCache(c) => CacheFarIn(src, s.cache, c, choice.victim);
    case InAhead(c, a) => AheadFarIn(src, s.ahead, c, a);
    case InMeter(c, a, m) => MeterFarIn(src, s.meter, c, a, m, choice);
    case _ =>
  }

  lemma CacheFarIn(src: Source, sh: Cache, c: CacheFrame, victim: nat)
    requires PageStart(c.off) <= |src.bytes|
    ensures !Prefetching(CacheMove(src, sh, c, victim).1)
  {
    hide PageStart, PageIndex, PageValid;
  }

  lemma {:induction false} AlwaysFarIn(src: Source, n: nat, acts: seq<Action>)
    requires After(src, n, acts).Some?
    ensures FarIn(After(src, n, acts).value)
  {
    hide DataInv, FarIn, Enabled, Apply, InitState;
    if acts == [] {
      FarInAtFirst(n);
    } else {
      var front := acts[..|acts| - 1];
      AlwaysFarIn(src, n, front);
      StackReturnsSourceBytes(src, n, front);
      FarInKept(src, After(src, n, front).value, acts[|acts| - 1]);
    }
  }

  lemma FarInAtFirst(n: nat)
    ensures FarIn(InitState(n))
  {
  }

  /** The shortest request the cache passes on there, and before the end, is 1024 bytes. */
  lemma PassedOnEnds(src: Source, c: CacheFrame, a: AheadFrame)
    requires ThreadOk(src, InAhead(c, a)) && a.off >= TRIGGER_BYTES && a.off + a.len + TRIGGER_BYTES <= |src.bytes|
    ensures a.off + a.len >= TRIGGER_BYTES + DIRECT_READ_THRESHOLD
  {
    hide AheadFrameOk;
    PageFacts(src, c.off, c.len);
    if c.pc == CBypassWait && c.len < DIRECT_READ_THRESHOLD {
      assert (c.off + c.len - 1) / PAGE_SIZE != PageIndex(c.off);
      CrossesPage(c.off, c.len);
    }
  }

  lemma CrossesPage(off: nat, len: nat)
    requires len > 0 && off >= TRIGGER_BYTES && (off + len - 1) / PAGE_SIZE != PageIndex(off)
    ensures off + len >= TRIGGER_BYTES + PAGE_SIZE
  {
    var k := off / PAGE_SIZE;
    assert PageStart(off) == k * PAGE_SIZE && PageIndex(off) == k;
    assert (off + len - 1) / PAGE_SIZE >= k + 1;
  }

  /** A window hit that armed the sequence hit the window that is still there. */
  lemma {:induction false} HitWindowStays(src: Source, n: nat, acts: seq<Action>, j: nat, r: Request)
    requires After(src, n, acts).Some? && ArmedBy(src, n, acts, j, r, FromWindow)
    ensures After(src, n, acts[..j]).Some?
    ensures SameWindow(After(src, n, acts[..j]).value.ahead, After(src, n, acts).value.ahead)
    decreases |acts|
  {
    hide After, EventOf, Enabled, Apply;
    var front, last := acts[..|acts| - 1], acts[|acts| - 1];
    AfterPrefix(src, n, acts, |front|);
    AfterPrefix(src, n, acts, j);
    assert acts == front + [last];
    AfterSnoc(src, n, front, last);
    ActionEvent(src, After(src, n, front).value, last);
    if j < |front| {
      assert front[..j] == acts[..j];
      HitWindowStays(src, n, front, j, r);
    } else {
      assert front == acts[..j];
    }
  }

  /** Arming by a hit needs room for it behind the first 32 KiB, and then for the read it sets off. */
  lemma {:induction false} HitNeedsRoom(src: Source, n: nat, acts: seq<Action>, act: Action, r: Request, j: nat,
                                        earlier: Request)
    requires After(src, n, acts).Some? && Decides(src, After(src, n, acts).value, act, r)
    requires ArmedBy(src, n, acts, j, earlier, FromWindow)
    ensures |src.bytes| >= 2 * TRIGGER_BYTES + DIRECT_READ_THRESHOLD
  {
    hide After, PagesOk, CacheFrameOk, AheadFrameOk, CacheInner, AheadInner, Decides;
    PrefetchHistory(src, n, acts, act, r);
    assert Armed(src, n, acts, earlier);
    ObservedRead(src, n, acts, j);
    AlwaysFarIn(src, n, acts[..j]);
    StackReturnsSourceBytes(src, n, acts[..j]);
    var s, t := After(src, n, acts[..j]).value, acts[j].thread;
    assert ThreadOk(src, s.threads[t]);
    PassedOnEnds(src, s.threads[t].c, s.threads[t].a);
  }

  // ---- a single thread on a short device ----

  const SHORT_DEVICE: nat := 2 * TRIGGER_BYTES + LOOK_AHEAD_BYTES

  /** Every window reaches the end of the device, and a read past its lookup is not in it. */
  predicate Lone(src: Source, s: State) {
    && |s.threads| == 1
    && (s.ahead.window != [] ==> s.ahead.start + |s.ahead.window| == |src.bytes|)
    && Missed(s.ahead, s.threads[0])
  }

  predicate Missed(sh: Ahead, t: Thread) {
    t.InAhead? && t.a.pc in {AMiss, ASeqCheck} ==> !WindowHolds(sh, t.a.off, t.a.len)
  }

  lemma InstallLone(src: Source, sh: Ahead, c: CacheFrame, a: AheadFrame)
    requires |src.bytes| <= SHORT_DEVICE && ThreadOk(src, InAhead(c, a)) && a.pc.AInstall? && a.off >= TRIGGER_BYTES
    ensures var r := AheadMove(src, sh, c, a); r.0.start + |r.0.window| == |src.bytes| && Missed(r.0, r.1)
  {
    hide PageStart, PageIndex, PageValid, GoesDirect, CacheFrameOk, CacheInner, CacheResume, WindowHolds;
    CacheResumeCounts(c, AheadResult(sh, a));
  }

  lemma AheadLone(src: Source, sh: Ahead, c: CacheFrame, a: AheadFrame)
    requires |src.bytes| <= SHORT_DEVICE && ThreadOk(src, InAhead(c, a)) && Missed(sh, InAhead(c, a))
    requires sh.window != [] ==> sh.start + |sh.window| == |src.bytes|
    requires Prefetching(InAhead(c, a)) ==> a.off >= TRIGGER_BYTES
    ensures var r := AheadMove(src, sh, c, a);
      (r.0.window != [] ==> r.0.start + |r.0.window| == |src.bytes|) && Missed(r.0, r.1)
  {
    hide PageStart, PageIndex, PageValid, GoesDirect, CacheFrameOk, CacheInner, CacheResume, IsSlice;
    if a.pc.AInstall? {
      InstallLone(src, sh, c, a);
    } else {
      CacheResumeCounts(c, AheadResult(sh, a));
    }
  }

  lemma BeginLone(src: Source, sh: Ahead, off: nat, len: nat)
    ensures Missed(sh, BeginRead(src, off, len))
  {
    hide GoesDirect;
  }

  lemma CacheLone(src: Source, sh: Ahead, pages: Cache, c: CacheFrame, victim: nat)
    requires PageStart(c.off) <= |src.bytes|
    ensures Missed(sh, CacheMove(src, pages, c, victim).1)
  {
    hide PageStart, PageIndex, PageValid;
  }

  lemma MeterLone(src: Source, sh: Ahead, meter: Meter, c: CacheFrame, a: AheadFrame, m: MeterFrame, choice: Choice)
    requires InRange(src, m.off, m.len)
    ensures Missed(sh, MeterMove(src, meter, c, a, m, choice).1)
  {
    hide CacheResume, Slice;
    CacheResumeCounts(c, Fail);
  }

  lemma MoveLone(src: Source, s: State, t: nat, choice: Choice)
    requires |src.bytes| <= SHORT_DEVICE && Lone(src, s) && FarIn(s) && t < |s.threads| && ThreadOk(src, s.threads[t])
    requires Enabled(src, s, Move(t, choice))
    ensures Lone(src, Apply(src, s, Move(t, choice)))
  {
    hide ThreadOk, CacheMove, AheadMove, MeterMove, Prefetching, WindowHolds;
    match s.threads[t]
    case InCache(c) =>
      CacheLone(src, s.ahead, s.cache, c, choice.victim);
      CacheLone(src, s.ahead.(calls := s.ahead.calls + 1), s.cache, c, choice.victim);
    case InAhead(c, a) => AheadLone(src, s.ahead, c, a);
    case InMeter(c, a, m) => MeterLone(src, s.ahead, s.meter, c, a, m, choice);
    case _ =>
  }

  lemma LoneKept(src: Source, s: State, act: Action)
    requires |src.bytes| <= SHORT_DEVICE && Lone(src, s) && FarIn(s) && DataInv(src, s) && Enabled(src, s, act)
    ensures Lone(src, Apply(src, s, act))
  {
    hide ThreadOk, CacheMove, AheadMove, MeterMove, PagesOk, WindowOk, GoesDirect, Prefetching;
    match act
    case Begin(t, off, len) => BeginLone(src, s.ahead, off, len);
    case Move(t, choice) =>
      assert ThreadOk(src, s.threads[t]);
      MoveLone(src, s, t, choice);
    case _ =>
  }

  lemma {:induction false} AlwaysLone(src: Source, acts: seq<Action>)
    requires |src.bytes| <= SHORT_DEVICE && After(src, 1, acts).Some?
    ensures Lone(src, After(src, 1, acts).value)
  {
    hide DataInv, FarIn, Lone, Enabled, Apply, InitState;
    if acts == [] {
      LoneAtFirst(src);
    } else {
      var front := acts[..|acts| - 1];
      AlwaysLone(src, front);
      AlwaysFarIn(src, 1, front);
      StackReturnsSourceBytes(src, 1, front);
      LoneKept(src, After(src, 1, front).value, acts[|acts| - 1]);
    }
  }

  lemma LoneAtFirst(src: Source)
    ensures Lone(src, InitState(1))
  {
  }

  /** There, one thread never prefetches after a window hit: the read would have been in the window. */
  lemma {:induction false} LoneHitNeedsLength(src: Source, acts: seq<Action>, act: Action, r: Request, j: nat,
                                              earlier: Request)
    requires After(src, 1, acts).Some? && Decides(src, After(src, 1, acts).value, act, r)
    requires ArmedBy(src, 1, acts, j, earlier, FromWindow)
    ensures |src.bytes| > SHORT_DEVICE
  {
    hide After, PagesOk, CacheFrameOk, AheadFrameOk, CacheInner, AheadInner, CacheMove, MeterMove, AheadMove, Decides;
    DecidesIffContinues(src, After(src, 1, acts).value, act, r);
    if |src.bytes| <= SHORT_DEVICE {
      AlwaysLone(src, acts);
      PrefetchHistory(src, 1, acts, act, r);
      assert Armed(src, 1, acts, earlier);
      ObservedRead(src, 1, acts, j);
      HitWindowStays(src, 1, acts, j, earlier);
    }
  }

  /** With one thread up to 320 KiB, with more below 65 KiB. */
  predicate RuleLength(src: Source, n: nat) {
    || n == 0
    || |src.bytes| < 2 * TRIGGER_BYTES + DIRECT_READ_THRESHOLD
    || (n == 1 && |src.bytes| <= SHORT_DEVICE)
  }

  /** The rule holds on short devices, the shorter the more threads there are. */
  lemma RuleOnShortDevices(src: Source, n: nat)
    requires RuleLength(src, n)
    ensures TwoLargeReads(src, n)
  {
    hide After, Enabled, Decides;
    forall acts, act, r, earlier | SetOff(src, n, acts, act, r, earlier)
      ensures r.len >= TRIGGER_BYTES && earlier.len >= TRIGGER_BYTES
    {
      if n == 0 {
        NoThreads(src, acts, act, r);
      }
      PrefetchHistory(src, n, acts, act, r);
      var j, served :| ArmedBy(src, n, acts, j, earlier, served);
      if served == FromWindow {
        HitNeedsRoom(src, n, acts, act, r, j, earlier);
        if n == 1 {
          LoneHitNeedsLength(src, acts, act, r, j, earlier);
        }
      }
    }
  }

  lemma {:induction false} NoThreads(src: Source, acts: seq<Action>, act: Action, r: Request)
    requires After(src, 0, acts).Some?
    ensures !Decides(src, After(src, 0, acts).value, act, r)
  {
    hide After, Apply;
    ThreadCount(src, 0, acts);
  }

  lemma {:induction false} ThreadCount(src: Source, n: nat, acts: seq<Action>)
    requires After(src, n, acts).Some?
    ensures |After(src, n, acts).value.threads| == n
  {
    hide CacheMove, AheadMove, MeterMove, BeginRead;
    if acts != [] {
      ThreadCount(src, n, acts[..|acts| - 1]);
    }
  }

  // ---- on longer devices the rule fails ----

  const STEADY: Choice := Choice(false, false, 0)

  /** Some run of `n` threads ends in `s`, remembering the read `armed` if one is named. */
  ghost predicate Reached(src: Source, n: nat, s: State, armed: Option<Request>) {
    exists acts :: After(src, n, acts) == Some(s) && (armed.Some? ==> Armed(src, n, acts, armed.value))
  }

  /** What is remembered after one more event. */
  function Remembered(event: Event, armed: Option<Request>): Option<Request> {
    match event
    case Quiet => armed
    case Observed(r, _) => Some(r)
    case _ => None
  }

  lemma ReachOn(src: Source, n: nat, s: State, armed: Option<Request>, act: Action)
    requires Reached(src, n, s, armed) && Enabled(src, s, act)
    ensures Reached(src, n, Apply(src, s, act), Remembered(EventOf(s, act), armed))
  {
    hide After, Enabled, Apply, EventOf, Armed;
    var acts :| After(src, n, acts) == Some(s) && (armed.Some? ==> Armed(src, n, acts, armed.value));
    var event := EventOf(s, act);
    AfterSnoc(src, n, acts, act);
    if Remembered(event, armed).Some? {
      ArmedSnoc(src, n, acts, act, Remembered(event, armed).value);
    }
    assert After(src, n, acts + [act]) == Some(Apply(src, s, act));
  }

  /** Thread `t` has come to `next`; the sequence state and the window are as they were. */
  predicate QuietTo(s: State, s': State, t: nat, next: Thread) {
    && t < |s.threads| && s'.threads == s.threads[t := next]
    && SameWindow(s.ahead, s'.ahead) && s'.ahead.hasLast == s.ahead.hasLast && s'.ahead.lastEnd == s.ahead.lastEnd
  }

  /** Thread `t` has finished the read `r`, which set the sequence state. */
  predicate Finished(s: State, s': State, t: nat, r: Request) {
    && t < |s.threads| && |s'.threads| == |s.threads| && s'.threads[t].Done?
    && s'.threads == s.threads[t := s'.threads[t]] && s'.ahead.hasLast && s'.ahead.lastEnd == r.off + r.len
  }

  ghost predicate PassTo(src: Source, n: nat, s: State, s': State, armed: Option<Request>, t: nat, next: Thread) {
    Reached(src, n, s', armed) && QuietTo(s, s', t, next)
  }

  /** A run can go on until thread `t` has come to `next`, still remembering the same read. */
  ghost predicate Passes(src: Source, n: nat, s: State, armed: Option<Request>, t: nat, next: Thread) {
    exists s' :: PassTo(src, n, s, s', armed, t, next)
  }

  ghost predicate EndAt(src: Source, n: nat, s: State, s': State, t: nat, r: Request, start: nat, window: seq<Byte>) {
    && Reached(src, n, s', Some(r)) && Finished(s, s', t, r) && s'.ahead.start == start && s'.ahead.window == window
  }

  /** A run can go on until thread `t` has finished the read `r`, which leaves this window. */
  ghost predicate Ends(src: Source, n: nat, s: State, t: nat, r: Request, start: nat, window: seq<Byte>) {
    exists s' :: EndAt(src, n, s, s', t, r, start, window)
  }

  /** One move of thread `t`, when it can move, with a device that answers and no spurious retry. */
  function Steady(src: Source, s: State, t: nat): State {
    if Enabled(src, s, Move(t, STEADY)) then Apply(src, s, Move(t, STEADY)) else s
  }

  function BypassFrame(off: nat, len: nat): CacheFrame {
    CacheFrame(off, len, CBypassWait)
  }

  function Looking(off: nat, len: nat): Thread {
    InAhead(BypassFrame(off, len), AheadFrame(off, len, ALookup))
  }

  function Checking(off: nat, len: nat): Thread {
    InAhead(BypassFrame(off, len), AheadFrame(off, len, ASeqCheck))
  }

  /** One quiet step of a thread in the read-ahead layer. */
  lemma AheadStep(src: Source, n: nat, s: State, armed: Option<Request>, t: nat, c: CacheFrame, a: AheadFrame)
    requires Reached(src, n, s, armed) && t < |s.threads| && s.threads[t] == InAhead(c, a) && a.off <= |src.bytes|
    requires AheadEvent(s.ahead, a) == Quiet
    ensures PassTo(src, n, s, Steady(src, s, t), armed, t, AheadMove(src, s.ahead, c, a).1)
  {
    hide Reached, AheadMove, AheadEvent;
    ReachOn(src, n, s, armed, Move(t, STEADY));
    AheadMoveEvent(src, s.ahead, c, a);
  }

  lemma MeterStep(src: Source, n: nat, s: State, armed: Option<Request>, t: nat, c: CacheFrame, a: AheadFrame,
                  m: MeterFrame)
    requires Reached(src, n, s, armed) && t < |s.threads| && s.threads[t] == InMeter(c, a, m)
    requires InRange(src, m.off, m.len)
    ensures var s', r := Steady(src, s, t), MeterMove(src, s.meter, c, a, m, STEADY);
      PassTo(src, n, s, s', armed, t, r.1) && s'.meter == r.0
  {
    hide Reached, MeterMove;
    ReachOn(src, n, s, armed, Move(t, STEADY));
  }

  lemma QuietTwice(s: State, m: State, s': State, t: nat, next: Thread, last: Thread)
    requires QuietTo(s, m, t, next) && QuietTo(m, s', t, last)
    ensures QuietTo(s, s', t, last)
  {
  }

  /** A call into the instrumentation comes back with the device's bytes, whatever the counters were. */
  lemma MeterPass(src: Source, n: nat, s: State, armed: Option<Request>, t: nat, c: CacheFrame, a: AheadFrame, off: nat,
                  len: nat)
    requires Reached(src, n, s, armed) && t < |s.threads| && InRange(src, off, len)
    requires s.threads[t] == InMeter(c, a, MeterFrame(off, len, MCount))
    ensures Passes(src, n, s, armed, t, AheadResume(c, a, Data(Slice(src, off, len))))
  {
    hide Reached, AheadResume, Slice, SameWindow, Steady;
    var s1 := Steady(src, s, t);
    MeterStep(src, n, s, armed, t, c, a, MeterFrame(off, len, MCount));
    var s2 := Steady(src, s1, t);
    MeterStep(src, n, s1, armed, t, c, a, MeterFrame(off, len, MLargestLoad));
    var s3 := Steady(src, s2, t);
    MeterStep(src, n, s2, armed, t, c, a, s2.threads[t].m);
    QuietTwice(s, s1, s2, t, s1.threads[t], s2.threads[t]);
    QuietTwice(s, s2, s3, t, s2.threads[t], s3.threads[t]);
    MeterPassRest(src, n, s3, armed, t, c, a, off, len);
    var next := AheadResume(c, a, Data(Slice(src, off, len)));
    var s' :| PassTo(src, n, s3, s', armed, t, next);
    QuietTwice(s, s3, s', t, s3.threads[t], next);
    assert PassTo(src, n, s, s', armed, t, next);
  }

  lemma MeterPassRest(src: Source, n: nat, s: State, armed: Option<Request>, t: nat, c: CacheFrame, a: AheadFrame,
                      off: nat, len: nat)
    requires Reached(src, n, s, armed) && t < |s.threads| && InRange(src, off, len)
    requires s.threads[t] == InMeter(c, a, MeterFrame(off, len, MEnter))
    ensures Passes(src, n, s, armed, t, AheadResume(c, a, Data(Slice(src, off, len))))
  {
    hide Reached, AheadResume, Slice, SameWindow, Steady;
    var s1 := Steady(src, s, t);
    MeterStep(src, n, s, armed, t, c, a, MeterFrame(off, len, MEnter));
    var s2 := Steady(src, s1, t);
    MeterStep(src, n, s1, armed, t, c, a, s1.threads[t].m);
    var s3 := Steady(src, s2, t);
    MeterStep(src, n, s2, armed, t, c, a, s2.threads[t].m);
    QuietTwice(s, s1, s2, t, s1.threads[t], s2.threads[t]);
    QuietTwice(s, s2, s3, t, s2.threads[t], s3.threads[t]);
    var s4 := Steady(src, s3, t);
    MeterStep(src, n, s3, armed, t, c, a, MeterFrame(off, len, MDevice));
    QuietTwice(s, s3, s4, t, s3.threads[t], s4.threads[t]);
    MeterStep(src, n, s4, armed, t, c, a, s4.threads[t].m);
    var s', next := Steady(src, s4, t), AheadResume(c, a, Data(Slice(src, off, len)));
    QuietTwice(s, s4, s', t, s4.threads[t], next);
    assert PassTo(src, n, s, s', armed, t, next);
  }

  /** A read of at least 1024 bytes goes straight to the read-ahead layer. */
  lemma EnterPass(src: Source, n: nat, s: State, armed: Option<Request>, t: nat, off: nat, len: nat)
    requires Reached(src, n, s, armed) && t < |s.threads| && (s.threads[t].Idle? || s.threads[t].Done?)
    requires InRange(src, off, len) && len >= DIRECT_READ_THRESHOLD
    ensures Passes(src, n, s, armed, t, Looking(off, len))
  {
    hide Reached, PageStart;
    PageStartBelow(off);
    ReachOn(src, n, s, armed, Begin(t, off, len));
    var s1 := Apply(src, s, Begin(t, off, len));
    ReachOn(src, n, s1, armed, Move(t, STEADY));
    var s2 := Apply(src, s1, Move(t, STEADY));
    ReachOn(src, n, s2, armed, Move(t, STEADY));
    assert PassTo(src, n, s, Apply(src, s2, Move(t, STEADY)), armed, t, Looking(off, len));
  }

  lemma PageStartBelow(off: nat)
    ensures PageStart(off) <= off
  {
  }

  /** A large read that is not in the window comes to the sequence check. */
  lemma MissPass(src: Source, n: nat, s: State, armed: Option<Request>, t: nat, off: nat, len: nat)
    requires Reached(src, n, s, armed) && t < |s.threads| && InRange(src, off, len) && len >= TRIGGER_BYTES
    requires s.threads[t] == Looking(off, len)
    requires !WindowHolds(s.ahead, off, len)
    ensures Passes(src, n, s, armed, t, Checking(off, len))
  {
    hide Reached, SameWindow, CacheResume, Steady;
    var m := Steady(src, s, t);
    AheadStep(src, n, s, armed, t, BypassFrame(off, len), AheadFrame(off, len, ALookup));
    AheadStep(src, n, m, armed, t, BypassFrame(off, len), AheadFrame(off, len, AMiss));
    QuietTwice(s, m, Steady(src, m, t), t, m.threads[t], Checking(off, len));
    assert PassTo(src, n, s, Steady(src, m, t), armed, t, Checking(off, len));
  }

  /** A large read that continues nothing is served from the device. */
  lemma DirectPass(src: Source, n: nat, s: State, armed: Option<Request>, t: nat, off: nat, len: nat)
    requires Reached(src, n, s, armed) && t < |s.threads| && InRange(src, off, len)
    requires s.threads[t] == Checking(off, len)
    requires !(s.ahead.hasLast && s.ahead.lastEnd == off)
    ensures Ends(src, n, s, t, Request(off, len), s.ahead.start, s.ahead.window)
  {
    hide Reached, Slice, Steady;
    var c := BypassFrame(off, len);
    var next := InAhead(c, AheadFrame(off, len, AObserve(Slice(src, off, len))));
    var s1 := Steady(src, s, t);
    AheadStep(src, n, s, armed, t, c, AheadFrame(off, len, ASeqCheck));
    var s2 := Steady(src, s1, t);
    AheadStep(src, n, s1, armed, t, c, AheadFrame(off, len, ALargeCall));
    QuietTwice(s, s1, s2, t, s1.threads[t], s2.threads[t]);
    MeterPass(src, n, s2, armed, t, c, AheadFrame(off, len, ALargeWait), off, len);
    var s3 :| PassTo(src, n, s2, s3, armed, t, next);
    QuietTwice(s, s2, s3, t, s2.threads[t], next);
    ReachOn(src, n, s3, armed, Move(t, STEADY));
    assert EndAt(src, n, s, Apply(src, s3, Move(t, STEADY)), t, Request(off, len), s.ahead.start, s.ahead.window);
  }

  /** A large read that continues the last one fills the window. */
  lemma PrefetchPass(src: Source, n: nat, s: State, armed: Option<Request>, t: nat, off: nat, len: nat)
    requires Reached(src, n, s, armed) && t < |s.threads| && InRange(src, off, len) && len > 0
    requires s.threads[t] == Checking(off, len)
    requires s.ahead.hasLast && s.ahead.lastEnd == off
    ensures Ends(src, n, s, t, Request(off, len), off, Slice(src, off, PrefetchTotal(src, off, len)))
  {
    hide Reached, SameWindow, Slice, Steady;
    var c, total := BypassFrame(off, len), PrefetchTotal(src, off, len);
    var loaded := Slice(src, off, total);
    var s1 := Steady(src, s, t);
    AheadStep(src, n, s, armed, t, c, AheadFrame(off, len, ASeqCheck));
    var s2 := Steady(src, s1, t);
    AheadStep(src, n, s1, armed, t, c, AheadFrame(off, len, APrefetchCall));
    MeterPass(src, n, s2, armed, t, c, AheadFrame(off, len, APrefetchWait), off, total);
    var s3 :| PassTo(src, n, s2, s3, armed, t, InAhead(c, AheadFrame(off, len, ACountPrefetch(loaded))));
    InstallPass(src, n, s3, armed, t, off, len, loaded);
    var s' :| EndAt(src, n, s3, s', t, Request(off, len), off, loaded);
    assert EndAt(src, n, s, s', t, Request(off, len), off, loaded);
  }

  lemma InstallPass(src: Source, n: nat, s: State, armed: Option<Request>, t: nat, off: nat, len: nat,
                    loaded: seq<Byte>)
    requires Reached(src, n, s, armed) && t < |s.threads| && off <= |src.bytes| && len <= |loaded|
    requires s.threads[t] == InAhead(BypassFrame(off, len), AheadFrame(off, len, ACountPrefetch(loaded)))
    ensures Ends(src, n, s, t, Request(off, len), off, loaded)
  {
    hide Reached, SameWindow, Steady;
    var c := BypassFrame(off, len);
    var s1 := Steady(src, s, t);
    AheadStep(src, n, s, armed, t, c, AheadFrame(off, len, ACountPrefetch(loaded)));
    var s2 := Steady(src, s1, t);
    AheadStep(src, n, s1, armed, t, c, AheadFrame(off, len, ACountBytes(loaded)));
    ReachOn(src, n, s2, armed, Move(t, STEADY));
    assert EndAt(src, n, s, Apply(src, s2, Move(t, STEADY)), t, Request(off, len), off, loaded);
  }

  /** A read of at least 1024 bytes that the window holds is served from it. */
  lemma HitPass(src: Source, n: nat, s: State, armed: Option<Request>, t: nat, off: nat, len: nat)
    requires Reached(src, n, s, armed) && t < |s.threads| && (s.threads[t].Idle? || s.threads[t].Done?)
    requires InRange(src, off, len) && len >= DIRECT_READ_THRESHOLD && WindowHolds(s.ahead, off, len)
    ensures Ends(src, n, s, t, Request(off, len), s.ahead.start, s.ahead.window)
  {
    hide Reached;
    EnterPass(src, n, s, armed, t, off, len);
    var m :| PassTo(src, n, s, m, armed, t, Looking(off, len));
    ReachOn(src, n, m, armed, Move(t, STEADY));
    assert EndAt(src, n, s, Apply(src, m, Move(t, STEADY)), t, Request(off, len), s.ahead.start, s.ahead.window);
  }

  /** A read of at least 32 KiB comes to the sequence check, if the window does not hold it. */
  lemma ToCheck(src: Source, n: nat, s: State, armed: Option<Request>, t: nat, off: nat, len: nat)
    requires Reached(src, n, s, armed) && t < |s.threads| && (s.threads[t].Idle? || s.threads[t].Done?)
    requires InRange(src, off, len) && len >= TRIGGER_BYTES && !WindowHolds(s.ahead, off, len)
    ensures Passes(src, n, s, armed, t, Checking(off, len))
  {
    hide Reached;
    EnterPass(src, n, s, armed, t, off, len);
    var m :| PassTo(src, n, s, m, armed, t, Looking(off, len));
    MissPass(src, n, m, armed, t, off, len);
    var s' :| PassTo(src, n, m, s', armed, t, Checking(off, len));
    QuietTwice(s, m, s', t, Looking(off, len), Checking(off, len));
    assert PassTo(src, n, s, s', armed, t, Checking(off, len));
  }

  /** Two large reads one after the other leave a window from the second on. */
  lemma FillWindow(src: Source, n: nat, s: State, t: nat)
    requires Reached(src, n, s, None) && t < |s.threads| && (s.threads[t].Idle? || s.threads[t].Done?)
    requires |src.bytes| >= 2 * TRIGGER_BYTES && s.ahead.window == [] && !s.ahead.hasLast
    ensures Ends(src, n, s, t, Request(TRIGGER_BYTES, TRIGGER_BYTES), TRIGGER_BYTES,
                 Slice(src, TRIGGER_BYTES, PrefetchTotal(src, TRIGGER_BYTES, TRIGGER_BYTES)))
  {
    hide Reached, Slice;
    var size, first, second := TRIGGER_BYTES, Request(0, TRIGGER_BYTES), Request(TRIGGER_BYTES, TRIGGER_BYTES);
    var window := Slice(src, size, PrefetchTotal(src, size, size));
    ToCheck(src, n, s, None, t, 0, size);
    var s1 :| PassTo(src, n, s, s1, None, t, Checking(0, size));
    DirectPass(src, n, s1, None, t, 0, size);
    var s2 :| EndAt(src, n, s1, s2, t, first, s1.ahead.start, s1.ahead.window);
    ToCheck(src, n, s2, Some(first), t, size, size);
    var s3 :| PassTo(src, n, s2, s3, Some(first), t, Checking(size, size));
    PrefetchPass(src, n, s3, Some(first), t, size, size);
    var s' :| EndAt(src, n, s3, s', t, second, size, window);
    assert EndAt(src, n, s, s', t, second, size, window);
  }

  /** One thread: a small hit near the end of the window, then a large read across that end. */
  lemma RuleFailsAlone(src: Source, n: nat)
    requires n >= 1 && |src.bytes| > SHORT_DEVICE
    ensures !TwoLargeReads(src, n)
  {
    hide After, Armed, SameWindow, Slice, Decides;
    var size, o := TRIGGER_BYTES, SHORT_DEVICE + 1 - TRIGGER_BYTES;
    var second, small := Request(size, size), Request(o - DIRECT_READ_THRESHOLD, DIRECT_READ_THRESHOLD);
    var window := Slice(src, size, PrefetchTotal(src, size, size));
    AtStart(src, n);
    assert Reached(src, n, InitState(n), None);
    FillWindow(src, n, InitState(n), 0);
    var s1 :| EndAt(src, n, InitState(n), s1, 0, second, size, window);
    HitPass(src, n, s1, Some(second), 0, small.off, small.len);
    var s2 :| EndAt(src, n, s1, s2, 0, small, size, window);
    ToCheck(src, n, s2, Some(small), 0, o, size);
    var s3 :| PassTo(src, n, s2, s3, Some(small), 0, Checking(o, size));
    NowSetsOff(src, n, s3, small, 0, o, size);
  }

  /** Two threads: one looks up a large read, the other fills the window and hits it just before that read. */
  lemma RuleFailsTogether(src: Source, n: nat)
    requires n >= 2 && |src.bytes| >= 2 * TRIGGER_BYTES + DIRECT_READ_THRESHOLD
    ensures !TwoLargeReads(src, n)
  {
    hide After, Armed, Slice, Decides;
    var size, o := TRIGGER_BYTES, TRIGGER_BYTES + DIRECT_READ_THRESHOLD;
    var second, small := Request(size, size), Request(size, DIRECT_READ_THRESHOLD);
    var window := Slice(src, size, PrefetchTotal(src, size, size));
    AtStart(src, n);
    assert Reached(src, n, InitState(n), None);
    ToCheck(src, n, InitState(n), None, 1, o, size);
    var s1 :| PassTo(src, n, InitState(n), s1, None, 1, Checking(o, size));
    FillWindow(src, n, s1, 0);
    var s2 :| EndAt(src, n, s1, s2, 0, second, size, window);
    HitPass(src, n, s2, Some(second), 0, small.off, small.len);
    var s3 :| EndAt(src, n, s2, s3, 0, small, size, window);
    NowSetsOff(src, n, s3, small, 1, o, size);
  }

  /** A thread at the sequence check, where a smaller read ended, breaks the rule with its next move. */
  lemma NowSetsOff(src: Source, n: nat, s: State, small: Request, t: nat, off: nat, len: nat)
    requires Reached(src, n, s, Some(small)) && small.len < TRIGGER_BYTES
    requires t < |s.threads| && s.threads[t] == Checking(off, len) && off <= |src.bytes|
    requires s.ahead.hasLast && s.ahead.lastEnd == off
    ensures !TwoLargeReads(src, n)
  {
    hide After, Armed, Decides;
    var acts :| After(src, n, acts) == Some(s) && Armed(src, n, acts, small);
    DecidesIffContinues(src, s, Move(t, STEADY), Request(off, len));
    assert SetOff(src, n, acts, Move(t, STEADY), Request(off, len), small);
  }

  /**
   * The class comment's rule holds in every run exactly on devices too short for a window hit to be
   * followed by a read that misses: with one thread up to 320 KiB, with more below 65 KiB.
   */
  lemma TwoLargeReadsIff(src: Source, n: nat)
    ensures TwoLargeReads(src, n) <==> RuleLength(src, n)
  {
    hide TwoLargeReads;
    if RuleLength(src, n) {
      RuleOnShortDevices(src, n);
    } else if n == 1 {
      RuleFailsAlone(src, n);
    } else {
      RuleFailsTogether(src, n);
    }
  }
}
