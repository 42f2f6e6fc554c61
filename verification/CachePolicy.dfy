/**
 * Which requests the two caching layers answer themselves and which they pass on, in every state
 * any interleaving can reach: `read_cache_block_device.hpp` and `read_ahead_block_device.hpp`.
 */
module CachePolicy {
  import opened Bytes
  import opened CacheStack

  /** A page of the device; the last one may be shorter. */
  function DevicePage(src: Source, p: nat): seq<Byte>
    requires p * 4096 <= |src.bytes|
  {
    src.bytes[p * 4096..Min(p * 4096 + 4096, |src.bytes|)]
  }

  /** A read of less than 1024 bytes inside one page looks for that page; any other goes past the pages. */
  lemma ReadIsRouted(src: Source, s: State, t: nat, off: nat, len: nat)
    requires Enabled(src, s, Begin(t, off, len))
    ensures var thread := Apply(src, s, Begin(t, off, len)).threads[t];
      && (off + len > |src.bytes| ==> thread == Done(off, len, Fail))
      && (off + len <= |src.bytes| && len == 0 ==> thread == Done(off, len, Data([])))
      && (off + len <= |src.bytes| && len > 0 ==>
        thread == InCache(CacheFrame(off, len,
          if len < 1024 && off / 4096 == (off + len - 1) / 4096 then CLookup else CBypass)))
  {
    PageOf(off);
  }

  lemma PageOf(off: nat)
    ensures PageIndex(off) == off / 4096 && PageStart(off) == off / 4096 * 4096
  {
  }

  /** A cached page answers at once, on a failing device too; nothing below is asked. */
  lemma CachedPageAnswers(src: Source, s: State, t: nat, off: nat, len: nat, choice: Choice)
    requires Inv(src, s) && t < |s.threads| && s.threads[t] == InCache(CacheFrame(off, len, CLookup))
    requires off / 4096 in s.cache.pages
    ensures Enabled(src, s, Move(t, choice)) && off + len <= |src.bytes|
    ensures Apply(src, s, Move(t, choice)) == s.(
      cache := s.cache.(hits := s.cache.hits + 1),
      threads := s.threads[t := Done(off, len, Data(src.bytes[off..off + len]))])
  {
    hide CountInv, WasteInv, PeakInv, GoesDirect, PageStart, PageIndex;
    assert ThreadOk(src, s.threads[t]);
    var page := s.cache.pages[off / 4096];
    assert PageOk(src, off / 4096, page);
    PageOf(off);
    PageFacts(src, off, len);
    SubSlice(src, PageStart(off), |page|, page, off, len);
  }

  /** A page that is not cached is asked for whole. */
  lemma UncachedPageIsFetched(src: Source, s: State, t: nat, off: nat, len: nat, choice: Choice)
    requires Inv(src, s) && t < |s.threads| && s.threads[t] == InCache(CacheFrame(off, len, CLookup))
    requires off / 4096 !in s.cache.pages
    ensures Enabled(src, s, Move(t, choice))
    ensures var s1 := Apply(src, s, Move(t, choice));
      Enabled(src, s1, Move(t, choice)) && Enabled(src, Apply(src, s1, Move(t, choice)), Move(t, choice))
    ensures var p, s1 := off / 4096, Apply(src, s, Move(t, choice));
      Apply(src, Apply(src, s1, Move(t, choice)), Move(t, choice)) == s.(
        cache := s.cache.(misses := s.cache.misses + 1), ahead := s.ahead.(calls := s.ahead.calls + 1),
        threads := s.threads[t := InAhead(CacheFrame(off, len, CFillWait),
                                          AheadFrame(p * 4096, |DevicePage(src, p)|, ALookup))])
  {
    hide CountInv, WasteInv, PeakInv, GoesDirect, PageStart, PageIndex;
    assert ThreadOk(src, s.threads[t]);
    PageOf(off);
    PageFacts(src, off, len);
  }

  /** A read that goes past the pages asks for its own bytes and leaves the pages alone. */
  lemma DirectReadIsPassedOn(src: Source, s: State, t: nat, off: nat, len: nat, choice: Choice)
    requires Inv(src, s) && t < |s.threads| && s.threads[t] == InCache(CacheFrame(off, len, CBypass))
    ensures Enabled(src, s, Move(t, choice)) && Enabled(src, Apply(src, s, Move(t, choice)), Move(t, choice))
    ensures Apply(src, Apply(src, s, Move(t, choice)), Move(t, choice)) == s.(
      cache := s.cache.(bypassReads := s.cache.bypassReads + 1), ahead := s.ahead.(calls := s.ahead.calls + 1),
      threads := s.threads[t := InAhead(CacheFrame(off, len, CBypassWait), AheadFrame(off, len, ALookup))])
  {
    hide CountInv, WasteInv, PeakInv, GoesDirect, PageStart, PageIndex;
    assert ThreadOk(src, s.threads[t]);
    PageFacts(src, off, len);
  }

  /**
   * A fetched page is kept and answers its read; of the others at most the chosen victim goes, and
   * only to make room for a new page beside 4096 others.
   */
  lemma FetchedPageStays(src: Source, s: State, t: nat, off: nat, len: nat, page: seq<Byte>, choice: Choice)
    requires Inv(src, s) && t < |s.threads| && s.threads[t] == InCache(CacheFrame(off, len, CInsert(page)))
    requires Enabled(src, s, Move(t, choice))
    ensures off + len <= |src.bytes|
    ensures var s', p := Apply(src, s, Move(t, choice)), off / 4096;
      && s'.threads == s.threads[t := Done(off, len, Data(src.bytes[off..off + len]))]
      && s'.ahead == s.ahead && s'.meter == s.meter
      && p in s'.cache.pages && s'.cache.pages[p] == DevicePage(src, p)
      && (forall q :: q in s'.cache.pages && q != p ==> q in s.cache.pages && s'.cache.pages[q] == s.cache.pages[q])
      && (forall q :: q in s.cache.pages && q !in s'.cache.pages ==>
            q == choice.victim && p !in s.cache.pages && |s.cache.pages| == 4096)
      && s'.cache == s.cache.(pages := s'.cache.pages, evictions := s'.cache.evictions)
      && s'.cache.evictions == s.cache.evictions + (if p !in s.cache.pages && |s.cache.pages| == 4096 then 1 else 0)
  {
    hide CountInv, WasteInv, PeakInv, GoesDirect, PageStart, PageIndex;
    assert ThreadOk(src, s.threads[t]);
    PageOf(off);
    PageFacts(src, off, len);
    SubSlice(src, PageStart(off), |page|, page, off, len);
  }

  // ---- the window ----

  /** The read-ahead layer is done with a request of thread `t`. */
  predicate Answered(c: CacheFrame, thread: Thread, data: seq<Byte>) {
    && (c.pc == CBypassWait ==> thread == Done(c.off, c.len, Data(data)))
    && (c.pc == CFillWait ==> thread == InCache(c.(pc := CInsert(data))))
  }

  /** Bytes of the window nobody has been served. */
  function Unused(sh: Ahead): nat {
    if |sh.window| > sh.served then |sh.window| - sh.served else 0
  }

  /** The window answers every request inside it without asking the device. */
  lemma WindowAnswers(src: Source, s: State, t: nat, c: CacheFrame, off: nat, len: nat, choice: Choice)
    requires Inv(src, s) && t < |s.threads| && s.threads[t] == InAhead(c, AheadFrame(off, len, ALookup))
    requires s.ahead.start <= off && off + len <= s.ahead.start + |s.ahead.window|
    ensures Enabled(src, s, Move(t, choice)) && off + len <= |src.bytes|
    ensures var s' := Apply(src, s, Move(t, choice));
      && Answered(c, s'.threads[t], src.bytes[off..off + len])
      && s'.meter == s.meter && s'.cache == s.cache
      && s'.ahead == s.ahead.(hits := s.ahead.hits + 1, served := s.ahead.served + len, hasLast := true,
                              servedFromWindow := s.ahead.servedFromWindow + len, lastEnd := off + len)
  {
    hide CountInv, WasteInv, PeakInv, GoesDirect, PageStart, PageIndex, PageValid;
    assert ThreadOk(src, s.threads[t]);
    PageFacts(src, c.off, c.len);
    SubSlice(src, s.ahead.start, |s.ahead.window|, s.ahead.window, off, len);
  }

  /** A request that leaves the window is a miss; small ones are passed on without a look at the sequence. */
  lemma OutsideTheWindow(src: Source, s: State, t: nat, c: CacheFrame, off: nat, len: nat, choice: Choice)
    requires Inv(src, s) && t < |s.threads| && s.threads[t] == InAhead(c, AheadFrame(off, len, ALookup))
    requires !(s.ahead.start <= off && off + len <= s.ahead.start + |s.ahead.window|)
    ensures Enabled(src, s, Move(t, choice)) && Enabled(src, Apply(src, s, Move(t, choice)), Move(t, choice))
    ensures Apply(src, Apply(src, s, Move(t, choice)), Move(t, choice)) == s.(
      ahead := s.ahead.(misses := s.ahead.misses + 1),
      threads := s.threads[t := InAhead(c, AheadFrame(off, len, if len < 32768 then ASmallCall else ASeqCheck))])
  {
    hide CountInv, WasteInv, PeakInv, GoesDirect, PageStart, PageIndex, PageValid;
    assert ThreadOk(src, s.threads[t]);
  }

  /**
   * A prefetch asks the device for up to 256 KiB beyond the read, and what it returns becomes the
   * window, so that every request inside that range is then answered without the device.
   */
  lemma PrefetchFillsTheWindow(src: Source, s: State, t: nat, c: CacheFrame, off: nat, len: nat, loaded: seq<Byte>,
                               choice: Choice)
    requires Inv(src, s) && t < |s.threads| && s.threads[t] == InAhead(c, AheadFrame(off, len, AInstall(loaded)))
    ensures Enabled(src, s, Move(t, choice)) && off + len <= |src.bytes|
    ensures var s' := Apply(src, s, Move(t, choice));
      && Answered(c, s'.threads[t], src.bytes[off..off + len]) && s'.meter == s.meter && s'.cache == s.cache
      && s'.ahead == s.ahead.(start := off, window := src.bytes[off..Min(|src.bytes|, off + len + 262144)],
                              served := len, hasLast := true, lastEnd := off + len,
                              wasted := s.ahead.wasted + Unused(s.ahead))
  {
    hide CountInv, WasteInv, PeakInv, GoesDirect, PageStart, PageIndex, PageValid;
    assert ThreadOk(src, s.threads[t]);
    PageFacts(src, c.off, c.len);
    SubSlice(src, off, |loaded|, loaded, off, len);
  }

  /** Before that it is counted once, with the bytes it fetched beyond the read. */
  lemma PrefetchIsCounted(src: Source, s: State, t: nat, c: CacheFrame, off: nat, len: nat, loaded: seq<Byte>,
                          choice: Choice)
    requires Inv(src, s) && t < |s.threads|
    requires s.threads[t] == InAhead(c, AheadFrame(off, len, ACountPrefetch(loaded)))
    ensures Enabled(src, s, Move(t, choice)) && Enabled(src, Apply(src, s, Move(t, choice)), Move(t, choice))
    ensures len <= |loaded|
    ensures Apply(src, Apply(src, s, Move(t, choice)), Move(t, choice)) == s.(
      ahead := s.ahead.(prefetches := s.ahead.prefetches + 1, prefetched := s.ahead.prefetched + |loaded| - len),
      threads := s.threads[t := InAhead(c, AheadFrame(off, len, AInstall(loaded)))])
  {
    hide CountInv, WasteInv, PeakInv, GoesDirect, PageStart, PageIndex, PageValid;
    assert ThreadOk(src, s.threads[t]);
  }

  /** Clearing drops every page, and the window with the memory of the last request; calls under way go on. */
  lemma ClearsForget(src: Source, s: State)
    ensures Apply(src, s, ClearPages) == s.(cache := s.cache.(pages := map[]))
    ensures Apply(src, s, ClearWindow) == s.(
      ahead := s.ahead.(window := [], start := 0, served := 0, hasLast := false, lastEnd := 0,
                        wasted := s.ahead.wasted + Unused(s.ahead)))
  {
  }
}
