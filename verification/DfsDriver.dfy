/** The radar detector as the driver runs it: objects whose lists, counters and pools are updated step by step,
    each operation proved to compute its specification. Lists are sequences with the list head at index 0. */
module DfsDriver {
  import opened DfsSpec
  import opened DfsSequences
  import opened DfsRuns

  /** A free list of elements backed by kmalloc, whose n-th call succeeds iff `kmalloc(n)`. */
  class ElementPool {
    const kmalloc: Memory
    var free: seq<nat>
    var attempts: nat

    ghost function Value(): Pool reads this { Pool(free, attempts) }

    constructor (kmalloc: Memory)
      ensures Value() == Pool([], 0) && this.kmalloc == kmalloc
    {
      this.kmalloc := kmalloc;
      free, attempts := [], 0;
    }

    method Release(id: nat)
      modifies this
      ensures Value() == Put(old(Value()), id) && free == [id] + old(free) && attempts == old(attempts)
    {
      free := [id] + free;
    }

    method Acquire() returns (ok: bool, id: nat)
      modifies this
      ensures Got(ok, id, Value()) == Get(old(Value()), kmalloc)
      ensures old(free) != [] ==> ok && [id] + free == old(free) && attempts == old(attempts)
      ensures old(free) == [] ==> ok == kmalloc(old(attempts)) && free == [] && attempts == old(attempts) + 1
    {
      if |free| > 0 {
        ok, id := true, free[0];
        free := free[1..];
      } else {
        ok := kmalloc(attempts);
        id := if ok then attempts else 0;
        attempts := attempts + 1;
      }
    }
  }

  /** One pulse-repetition-interval detector: the state of a radar rule. */
  class PriDetector {
    const rule: Rule
    var lastTs: nat
    var windowSize: nat
    var count: int
    var maxCount: nat
    var pulses: seq<Pulse>
    var sequences: seq<PriSequence>
    ghost var history: seq<nat>
    ghost var queues: seq<seq<Pulse>>

    ghost function Value(): Detector reads this { Detector(lastTs, count, pulses, sequences, history, queues) }

    ghost predicate Valid() reads this {
      windowSize == WindowSize(rule) && maxCount == MaxCount(rule)
    }

    constructor (rule: Rule)
      ensures Valid() && this.rule == rule && Value() == ResetDetector(0)
    {
      this.rule := rule;
      windowSize, maxCount := rule.priMax * rule.ppb * rule.nrPri, rule.ppb * 2;
      lastTs, count, pulses, sequences, history, queues := 0, 0, [], [], [], [];
    }

    method Configure()
      modifies this
      ensures Valid() && Value() == Emptied(old(Value()))
    {
      sequences, pulses, history, queues := [], [], [], [];
      windowSize := rule.priMax * rule.ppb * rule.nrPri;
      maxCount := rule.ppb * 2;
    }

    /** The part of the set-up of an interface that concerns this detector. */
    method InitLists()
      requires Valid()
      modifies this
      ensures Valid() && Value() == Emptied(old(Value()))
    {
      sequences, pulses, history, queues := [], [], [], [];
    }

    method Dequeue(pool: ElementPool) returns (more: bool)
      requires Valid()
      modifies this, pool
      ensures Valid() && more == (count > 0)
      ensures old(pulses) == [] ==> Value() == old(Value()) && pool.Value() == old(pool.Value())
      ensures old(pulses) != [] ==>
                && Value() == old(Value()).(pulses := old(pulses)[..|old(pulses)| - 1], count := old(count) - 1)
                && pool.Value() == Put(old(pool.Value()), old(pulses)[|old(pulses)| - 1].id)
    {
      if |pulses| > 0 {
        var p := pulses[|pulses| - 1];
        pulses := pulses[..|pulses| - 1];
        count := count - 1;
        pool.Release(p.id);
      }
      return count > 0;
    }

    /** Drops the pulses that are older than the window, whatever `count` says beyond them. */
    method CheckWindow(pool: ElementPool)
      requires Valid()
      modifies this, pool
      ensures Valid()
      ensures var n := InWindow(rule, old(pulses), old(count), lastTs);
              && Value() == old(Value()).(pulses := old(pulses)[..n], count := old(count) - (|old(pulses)| - n))
              && pool.Value() == DropTail(old(pulses), n, old(pool.Value()))
    {
      assert pulses[..|pulses|] == pulses;
      if count < 2 { return; }
      if lastTs <= windowSize { return; }
      var minValid := lastTs - windowSize;
      ghost var n := Kept(pulses, minValid);
      while |pulses| > 0 && pulses[|pulses| - 1].ts < minValid
        invariant Valid()
        invariant n == Kept(pulses, minValid) <= |pulses| <= |old(pulses)|
        invariant pulses == old(pulses)[..|pulses|]
        invariant Value() == old(Value()).(pulses := pulses, count := old(count) - (|old(pulses)| - |pulses|))
        invariant DropTail(old(pulses), n, old(pool.Value())) == DropTail(pulses, n, pool.Value())
        decreases |pulses|
      {
        assert Kept(pulses, minValid) == Kept(pulses[..|pulses| - 1], minValid);
        var more := Dequeue(pool);
      }
    }

    method Enqueue(pool: ElementPool, ts: nat) returns (ok: bool)
      requires Valid()
      modifies this, pool
      ensures Valid()
      ensures var f := DfsSpec.Enqueue(rule, old(Value()), Pools(old(pool.Value()), Pool([], 0)), ts, Memories(pool.kmalloc, _ => true));
              Value() == f.detector && pool.Value() == f.pools.pulse
    {
      hide InWindow;
      hide DropTail;
      var id;
      ok, id := pool.Acquire();
      if !ok { return; }
      pulses := [Pulse(id, ts)] + pulses;
      count := count + 1;
      lastTs := ts;
      ghost var all := pulses;
      ghost var before := pool.Value();
      CheckWindow(pool);
      ghost var n := |pulses|;
      if count >= maxCount {
        var more := Dequeue(pool);
        if n > 0 {
          assert all[..n][..n - 1] == all[..n - 1];
          DropOneMore(all, n, before);
        }
      }
    }

    /** Adds the pulse to the sequences that are still alive and drops the expired ones. */
    method AddToExisting(pool: ElementPool, ts: nat) returns (updated: nat)
      modifies this`sequences, pool
      ensures sequences == Extend(rule, old(sequences), ts)
      ensures pool.Value() == PutAll(old(pool.Value()), Expired(old(sequences), ts))
      ensures updated == MaxUpdated(rule, old(sequences), ts)
    {
      hide Extend;
      hide Expired;
      hide MaxUpdated;
      hide PutAll;
      hide GetMultiple;
      ghost var before := sequences;
      ghost var k := 0;
      var i := 0;
      updated := 0;
      ExtendNone(rule, ts);
      PutNone(pool.Value());
      assert before[..0] == [];
      while i < |sequences|
        invariant k <= |before| && i <= |sequences|
        invariant sequences[..i] == Extend(rule, before[..k], ts)
        invariant sequences[i..] == before[k..]
        invariant pool.Value() == PutAll(old(pool.Value()), Expired(before[..k], ts))
        invariant updated == MaxUpdated(rule, before[..k], ts)
        decreases |before| - k
      {
        var ps := sequences[i];
        assert ps == sequences[i..][0] == before[k..][0];
        ExtendNext(rule, before, k, ts);
        if ts > ps.deadlineTs {
          PutOneMore(old(pool.Value()), Expired(before[..k], ts), ps.id);
          assert sequences[i + 1..] == before[k + 1..];
          sequences := sequences[..i] + sequences[i + 1..];
          pool.Release(ps.id);
        } else {
          var factor := GetMultiple(Wrap32(ts - ps.lastTs), ps.pri, rule.tolerance);
          if factor > 0 {
            ps := ps.(lastTs := ts, count := ps.count + 1);
            if updated < ps.count { updated := ps.count; }
          } else {
            ps := ps.(falses := ps.falses + 1);
          }
          assert sequences[i + 1..] == before[k + 1..];
          sequences := sequences[i := ps];
          i := i + 1;
          assert sequences[..i] == sequences[..i - 1] + [ps];
        }
        k := k + 1;
      }
      assert before[..k] == before && sequences[..i] == sequences;
    }

    /** Builds the sequence whose last two pulses are the stored pulse `i` and the one at `ts`. */
    method BuildSequence(i: nat, ts: nat) returns (ps: PriSequence)
      requires i < |pulses| && Sorted(pulses, rule.tolerance, ts)
      ensures ps == NewSequence(rule, pulses, i, ts)
    {
      hide GetMultiple;
      hide Wrap64;
      hide Wrap32;
      hide PriToUse;
      hide Matches;
      hide OldestMatch;
      hide FalsesBeforeOldest;
      var pri := PriToUse(rule, Wrap32(ts - pulses[i].ts));
      var dur := Wrap32(pri * (rule.ppb - 1) + 2 * rule.tolerance);
      var cnt, falses, first, tmpFalses := 2, 0, pulses[i].ts, 0;
      var minValid := Wrap64(ts - dur);
      var j := i + 1;
      ScanStart(rule, pri, ts, pulses[i + 1..], pulses[i].ts);
      ghost var older := pulses[i + 1..];
      while j < |pulses|
        invariant i < j <= |pulses|
        invariant Scanned(rule, pri, ts, older, j - i - 1, pulses[i].ts, cnt, first, falses, tmpFalses)
      {
        if pulses[j].ts < minValid { break; }
        assert pulses[j] == older[j - i - 1];
        ScanStep(rule, pri, ts, older, j - i - 1, pulses[i].ts, cnt, first, falses, tmpFalses);
        var factor := GetMultiple(Wrap32(ts - pulses[j].ts), pri, rule.tolerance);
        if factor > 0 {
          cnt := cnt + 1;
          first := pulses[j].ts;
          falses := falses + tmpFalses;
          tmpFalses := 0;
        } else {
          tmpFalses := tmpFalses + 1;
        }
        j := j + 1;
      }
      NoMatchBeyond(rule, pri, ts, older, j - i - 1, pulses[i].ts);
      ps := PriSequence(0, pri, dur, cnt, falses, first, ts, first + dur);
    }

    /** Creates the new sequences the pulse gives rise to; fails when the memory for one is missing. */
    method CreateSequences(pool: ElementPool, ts: nat, minCount: nat) returns (ok: bool)
      requires Sorted(pulses, rule.tolerance, ts)
      modifies this`sequences, pool
      ensures Created(ok, sequences, pool.Value())
              == Create(rule, pulses, |pulses|, ts, minCount, old(sequences), old(pool.Value()), pool.kmalloc)
    {
      hide NewSequence;
      hide Get;
      hide Wrap32;
      hide Sorted;
      ghost var ss, pv := sequences, pool.Value();
      var n := 0;
      while n < |pulses|
        invariant n <= |pulses|
        invariant Created(true, sequences, pool.Value()) == Create(rule, pulses, n, ts, minCount, ss, pv, pool.kmalloc)
      {
        var p := pulses[n];
        var delta := Wrap32(ts - p.ts);
        if delta < rule.priMin {
          n := n + 1;
          continue;
        }
        if delta > rule.priMax { break; }
        var ps := BuildSequence(n, ts);
        if ps.count <= minCount {
          n := n + 1;
          continue;
        }
        var got, id := pool.Acquire();
        if !got {
          CreateFailed(rule, pulses, n + 1, |pulses|, ts, minCount, ss, pv, pool.kmalloc);
          return false;
        }
        sequences := [ps.(id := id)] + sequences;
        n := n + 1;
      }
      NoCandidateBeyond(rule, pulses, n, |pulses|, ts, minCount, ss, pv, pool.kmalloc);
      return true;
    }

    method CheckDetection() returns (found: bool)
      ensures found == Detected(rule, sequences)
    {
      if |sequences| == 0 { return false; }
      for i := 0 to |sequences|
        invariant forall k :: 0 <= k < i ==> !Detects(rule, sequences[k])
      {
        var ps := sequences[i];
        if ps.count >= rule.ppbThresh && ps.count * rule.nrPri >= ps.falses { return true; }
      }
      return false;
    }

    /** Shows one pulse to this detector; true when it takes it for radar. */
    method Feed(pulsePool: ElementPool, pseqPool: ElementPool, p: PulseInfo, reset: bool, ghost now: nat)
      returns (radar: bool)
      requires Valid() && pulsePool != pseqPool && ValidRule(rule) && DetectorInv(rule, Value(), now)
      requires p.ts < U32 && reset == (now > p.ts)
      modifies this, pulsePool, pseqPool
      ensures Valid()
      ensures Fed(Value(), Pools(pulsePool.Value(), pseqPool.Value()), radar)
              == DfsSpec.Feed(rule, old(Value()), Pools(old(pulsePool.Value()), old(pseqPool.Value())), p, reset,
                              Memories(pulsePool.kmalloc, pseqPool.kmalloc))
    {
      hide Create;
      hide Extend;
      hide DfsSpec.Enqueue;
      hide Detected;
      hide AllSupported;
      hide ResetPools;
      hide MaxUpdated;
      hide Expired;
      hide PutAll;
      if reset {
        Reset(pulsePool, pseqPool, p.ts);
        return false;
      }
      if rule.widthMin > p.width || rule.widthMax < p.width { return false; }
      if rule.chirp && rule.chirp != p.chirp { return false; }
      if Wrap64(p.ts - lastTs) < rule.tolerance { return false; }
      history, queues := history + [p.ts], queues + [pulses];
      var updated := AddToExisting(pseqPool, p.ts);
      var ok := CreateSequences(pseqPool, p.ts, updated);
      if !ok {
        Reset(pulsePool, pseqPool, p.ts);
        return false;
      }
      radar := CheckDetection();
      if radar { return; }
      EnqueueIgnores(rule, Value(), Pools(pulsePool.Value(), pseqPool.Value()), p.ts, Memories(pulsePool.kmalloc, pseqPool.kmalloc));
      var queued := Enqueue(pulsePool, p.ts);
    }

    method Reset(pulsePool: ElementPool, pseqPool: ElementPool, ts: nat)
      requires Valid() && pulsePool != pseqPool
      modifies this, pulsePool, pseqPool
      ensures Valid() && Value() == ResetDetector(ts)
      ensures Pools(pulsePool.Value(), pseqPool.Value())
              == ResetPools(old(Value()), Pools(old(pulsePool.Value()), old(pseqPool.Value())))
    {
      hide PutAll;
      ghost var ids := SeqIds(sequences);
      ghost var k := 0;
      PutNone(pseqPool.Value());
      PutNone(pulsePool.Value());
      while |sequences| > 0
        invariant k + |sequences| == |ids| && ids[k..] == SeqIds(sequences)
        invariant pseqPool.Value() == PutAll(old(pseqPool.Value()), ids[..k])
        invariant pulsePool.Value() == old(pulsePool.Value()) && pulses == old(pulses) && Valid()
        decreases |sequences|
      {
        var ps := sequences[0];
        NextSeqId(ids, k, sequences);
        PutOneMore(old(pseqPool.Value()), ids[..k], ps.id);
        sequences := sequences[1..];
        pseqPool.Release(ps.id);
        k := k + 1;
      }
      assert ids[..k] == ids;
      ids, k := PulseIds(pulses), 0;
      while |pulses| > 0
        invariant k + |pulses| == |ids| && ids[k..] == PulseIds(pulses)
        invariant pulsePool.Value() == PutAll(old(pulsePool.Value()), ids[..k])
        invariant pseqPool.Value() == PutAll(old(pseqPool.Value()), SeqIds(old(sequences)))
        invariant sequences == [] && Valid()
        decreases |pulses|
      {
        var p := pulses[0];
        NextPulseId(ids, k, pulses);
        PutOneMore(old(pulsePool.Value()), ids[..k], p.id);
        pulses := pulses[1..];
        pulsePool.Release(p.id);
        k := k + 1;
      }
      assert ids[..k] == ids;
      count := 0;
      lastTs := ts;
      history, queues := [], [];
    }
  }

  /** The detectors of one regulatory region and the state shared between them. */
  class RadarBank {
    const cfgs: seq<PriDetector>
    const pulsePool: ElementPool
    const pseqPool: ElementPool
    var lastPulseTs: nat
    var cac: bool
    var monitor: bool
    ghost var events: seq<Event>  // everything that happened since construction

    ghost function Rules(): seq<Rule> { seq(|cfgs|, i requires 0 <= i < |cfgs| => cfgs[i].rule) }

    ghost function Detectors(): seq<Detector>
      reads cfgs
    {
      seq(|cfgs|, i requires 0 <= i < |cfgs| reads cfgs => cfgs[i].Value())
    }

    ghost function PoolValues(): Pools
      reads pulsePool, pseqPool
    {
      Pools(pulsePool.Value(), pseqPool.Value())
    }

    ghost function Mem(): Memories { Memories(pulsePool.kmalloc, pseqPool.kmalloc) }

    ghost function Value(): State
      reads this, cfgs, pulsePool, pseqPool
    {
      State(Detectors(), PoolValues(), lastPulseTs, cac, monitor)
    }

    ghost predicate Shape()
      reads cfgs
    {
      && pulsePool != pseqPool
      && (forall i, j :: 0 <= i < j < |cfgs| ==> cfgs[i] != cfgs[j])
      && (forall i :: 0 <= i < |cfgs| ==> cfgs[i].Valid())
    }

    /** The state is the one that the recorded run leads to. */
    ghost predicate Valid()
      reads this, cfgs, pulsePool, pseqPool
    {
      && Shape() && ValidRules(Rules())
      && Legal(events) && Value() == Run(Rules(), Mem(), events)
    }

    constructor (cfgs: seq<PriDetector>, kmallocPulse: Memory, kmallocPseq: Memory)
      requires forall i, j :: 0 <= i < j < |cfgs| ==> cfgs[i] != cfgs[j]
      requires forall i :: 0 <= i < |cfgs| ==> cfgs[i].Valid() && cfgs[i].Value() == ResetDetector(0)
      requires forall i :: 0 <= i < |cfgs| ==> ValidRule(cfgs[i].rule)
      ensures Valid() && events == [] && this.cfgs == cfgs && fresh(pulsePool) && fresh(pseqPool)
      ensures Mem() == Memories(kmallocPulse, kmallocPseq)
      ensures Value() == DfsRuns.Reset(|cfgs|)
    {
      this.cfgs := cfgs;
      pulsePool := new ElementPool(kmallocPulse);
      pseqPool := new ElementPool(kmallocPseq);
      lastPulseTs, cac, monitor, events := 0, false, false, [];
    }

    /** Shows a pulse to every detector. Radar is reported only for a train of pulses of the run so far. */
    method AddPulse(p: PulseInfo) returns (radar: bool)
      requires Valid() && p.ts < U32
      modifies this, cfgs, pulsePool, pseqPool
      ensures Valid() && events == old(events) + [PulseSeen(p)]
      ensures Outcome(Value(), radar) == DfsSpec.AddPulse(Rules(), old(Value()), p, Mem())
      ensures radar ==> exists i: nat, w, c: nat, pri: nat, since: nat, born: nat ::
                Justified(Rules(), Mem(), events, i, w, c, pri, since, born)
    {
      hide Run;
      hide DfsSpec.AddPulse;
      hide Justified;
      hide DetectorInv;
      ghost var since := RunKeeps(Rules(), Mem(), events);
      RunGrows(Rules(), Mem(), events, PulseSeen(p));
      hide Legal;
      radar := FeedAll(p);
      if radar { RadarIsJustified(Rules(), Mem(), events, p); }
      events := events + [PulseSeen(p)];
    }

    /** The loop over the detectors; a report stops detection. */
    method FeedAll(p: PulseInfo) returns (radar: bool)
      requires Shape() && ValidRules(Rules()) && AllInv(Rules(), Detectors(), lastPulseTs) && p.ts < U32
      modifies this`lastPulseTs, this`cac, this`monitor, cfgs, pulsePool, pseqPool
      ensures Shape()
      ensures Outcome(Value(), radar) == DfsSpec.AddPulse(Rules(), old(Value()), p, Mem())
    {
      hide FeedBank;
      hide Feed;
      hide DetectorInv;
      hide ResetAll;
      hide ValidRule;
      if !cac && !monitor { return false; }
      var reset := lastPulseTs > p.ts;
      ghost var now := lastPulseTs;
      lastPulseTs := p.ts;
      ghost var ds, pools := Detectors(), PoolValues();
      FeedBankStart(Rules(), ds, pools, p, reset, Mem());
      var i := 0;
      while i < |cfgs|
        invariant 0 <= i <= |cfgs| && Shape() && cac == old(cac) && monitor == old(monitor) && lastPulseTs == p.ts
        invariant Bank(Detectors(), PoolValues(), false) == FeedBank(Rules(), ds, i, pools, p, reset, Mem())
      {
        assert Detectors()[i] == ds[i];
        FeedBankStep(Rules(), ds, i, pools, p, reset, Mem());
        ghost var before := Detectors();
        radar := cfgs[i].Feed(pulsePool, pseqPool, p, reset, now);
        assert Detectors() == before[i := cfgs[i].Value()];
        if radar {
          Deinit(true);
          FeedBankDone(Rules(), ds, i + 1, |cfgs|, pools, p, reset, Mem());
          return true;
        }
        i := i + 1;
      }
      return false;
    }

    /** Stops detection on this interface or another one, and returns every element to its pool. */
    method Deinit(own: bool)
      requires Shape()
      modifies this`cac, this`monitor, cfgs, pulsePool, pseqPool
      ensures Shape() && Value() == DfsSpec.Deinit(old(Value()), own)
    {
      hide ResetPools;
      if own { cac, monitor := false, false; }
      ghost var ds, pools := Detectors(), PoolValues();
      var i := 0;
      while i < |cfgs|
        invariant 0 <= i <= |cfgs| && Shape() && lastPulseTs == old(lastPulseTs)
        invariant cac == (old(cac) && !own) && monitor == (old(monitor) && !own)
        invariant Bank(Detectors(), PoolValues(), true) == ResetAll(ds, i, pools)
      {
        ghost var before := Detectors();
        cfgs[i].Reset(pulsePool, pseqPool, 0);
        assert Detectors() == before[i := cfgs[i].Value()];
        i := i + 1;
      }
    }

    /** Stopping an access point stops detection. */
    method Stop(own: bool)
      requires Valid()
      modifies this, cfgs, pulsePool, pseqPool
      ensures Valid() && events == old(events) + [Event.Stop(own)] && Value() == DfsSpec.Deinit(old(Value()), own)
    {
      hide Run;
      RunGrows(Rules(), Mem(), events, Event.Stop(own));
      hide Legal;
      hide DfsSpec.Deinit;
      Deinit(own);
      events := events + [Event.Stop(own)];
    }

    /** The availability check ends without a report: its flag is cleared, the detectors stay as they are. */
    method EndCheck()
      requires Valid()
      modifies this
      ensures Valid() && events == old(events) + [CacDone] && Value() == old(Value()).(cac := false)
    {
      hide Run;
      RunGrows(Rules(), Mem(), events, CacDone);
      hide Legal;
      cac := false;
      events := events + [CacDone];
    }

    /** Configures a channel and starts the check or the monitoring of it; `ok` is the firmware's answer. */
    method Start(mon: bool, ok: bool)
      requires Valid()
      modifies this, cfgs
      ensures Valid() && events == old(events) + [Event.Start(mon, ok)] && Value() == ChanInit(old(Value()), mon, ok)
    {
      hide Run;
      RunGrows(Rules(), Mem(), events, Event.Start(mon, ok));
      hide Legal;
      lastPulseTs := 0;
      ConfigureAll();
      if ok {
        if mon { monitor := true; } else { cac := true; }
      }
      events := events + [Event.Start(mon, ok)];
    }

    method ConfigureAll()
      requires Shape()
      modifies cfgs
      ensures Shape() && Detectors() == EmptyLists(old(Detectors()))
    {
      hide Emptied;
      ghost var ds := Detectors();
      var i := 0;
      while i < |cfgs|
        invariant 0 <= i <= |cfgs| && Shape()
        invariant forall k :: 0 <= k < |cfgs| ==> cfgs[k].Value() == if k < i then Emptied(ds[k]) else ds[k]
      {
        cfgs[i].Configure();
        i := i + 1;
      }
    }

    method InitAll()
      requires Shape()
      modifies cfgs
      ensures Shape() && Detectors() == EmptyLists(old(Detectors()))
    {
      hide Emptied;
      ghost var ds := Detectors();
      var i := 0;
      while i < |cfgs|
        invariant 0 <= i <= |cfgs| && Shape()
        invariant forall k :: 0 <= k < |cfgs| ==> cfgs[k].Value() == if k < i then Emptied(ds[k]) else ds[k]
      {
        cfgs[i].InitLists();
        i := i + 1;
      }
    }

    /** Sets up an interface, this one or another that shares the detectors. */
    method InitInterface(own: bool)
      requires Valid()
      modifies this, cfgs
      ensures Valid() && events == old(events) + [Event.Init(own)] && Value() == DfsSpec.InitInterface(old(Value()), own)
    {
      hide Run;
      RunGrows(Rules(), Mem(), events, Event.Init(own));
      hide Legal;
      if own { cac, monitor := false, false; }
      InitAll();
      events := events + [Event.Init(own)];
    }
  }

  // ----- steps the loops take

  lemma {:induction false} RunGrows(rules: seq<Rule>, mem: Memories, events: seq<Event>, e: Event)
    ensures Run(rules, mem, events + [e]) == Step(rules, mem, Run(rules, mem, events), e)
    ensures Legal(events + [e]) <==> Legal(events) && (e.PulseSeen? ==> e.p.ts < U32)
  {
    hide Step;
    assert (events + [e])[..|events|] == events;
    LegalGrows(events, e);
  }

  lemma {:induction false} FeedBankStart(rules: seq<Rule>, ds: seq<Detector>, pools: Pools, p: PulseInfo, reset: bool, mem: Memories)
    requires |rules| == |ds|
    ensures FeedBank(rules, ds, 0, pools, p, reset, mem) == Bank(ds, pools, false)
  {
  }

  lemma {:induction false} FeedBankStep(rules: seq<Rule>, ds: seq<Detector>, n: nat, pools: Pools, p: PulseInfo, reset: bool, mem: Memories)
    requires n < |rules| == |ds|
    ensures var b := FeedBank(rules, ds, n, pools, p, reset, mem);
            var f := Feed(rules[n], b.detectors[n], b.pools, p, reset, mem);
            !b.radar ==> FeedBank(rules, ds, n + 1, pools, p, reset, mem)
                         == if f.radar then ResetAll(b.detectors[n := f.detector], |ds|, f.pools)
                            else Bank(b.detectors[n := f.detector], f.pools, false)
  {
    hide Feed;
  }

  lemma {:induction false} FeedBankDone(rules: seq<Rule>, ds: seq<Detector>, n: nat, m: nat, pools: Pools, p: PulseInfo,
                                        reset: bool, mem: Memories)
    requires n <= m <= |rules| == |ds| && FeedBank(rules, ds, n, pools, p, reset, mem).radar
    ensures FeedBank(rules, ds, m, pools, p, reset, mem) == FeedBank(rules, ds, n, pools, p, reset, mem)
    decreases m
  {
    hide Feed;
    if n < m { FeedBankDone(rules, ds, n, m - 1, pools, p, reset, mem); }
  }

  lemma {:induction false} EnqueueIgnores(r: Rule, d: Detector, pools: Pools, ts: nat, mem: Memories)
    ensures var f := DfsSpec.Enqueue(r, d, pools, ts, mem);
            var g := DfsSpec.Enqueue(r, d, Pools(pools.pulse, Pool([], 0)), ts, Memories(mem.pulse, _ => true));
            f == Fed(g.detector, Pools(g.pools.pulse, pools.pseq), false)
  {
  }

  lemma {:induction false} ExtendNone(r: Rule, ts: nat)
    ensures Extend(r, [], ts) == [] && Expired([], ts) == [] && MaxUpdated(r, [], ts) == 0
  {
  }

  lemma {:induction false} ExtendNext(r: Rule, ss: seq<PriSequence>, k: nat, ts: nat)
    requires k < |ss|
    ensures var a, b, ps, max := ss[..k], ss[..k + 1], ss[k], MaxUpdated(r, ss[..k], ts);
            if ts > ps.deadlineTs
            then Extend(r, b, ts) == Extend(r, a, ts) && Expired(b, ts) == Expired(a, ts) + [ps.id] && MaxUpdated(r, b, ts) == max
            else && Extend(r, b, ts) == Extend(r, a, ts) + [ExtendOne(r, ps, ts)] && Expired(b, ts) == Expired(a, ts)
                 && MaxUpdated(r, b, ts) == if Hits(r, ps, ts) && max < ps.count + 1 then ps.count + 1 else max
  {
    hide ExtendOne;
    hide Hits;
    assert ss[..k + 1][..k] == ss[..k];
  }

  lemma {:induction false} NextSeqId(ids: seq<nat>, k: nat, ss: seq<PriSequence>)
    requires k <= |ids| && ids[k..] == SeqIds(ss) && ss != []
    ensures k < |ids| && ids[..k + 1] == ids[..k] + [ss[0].id] && ids[k + 1..] == SeqIds(ss[1..])
  {
    assert |ids[k..]| > 0 && ids[k..][0] == ss[0].id && ids[k + 1..] == ids[k..][1..];
  }

  lemma {:induction false} NextPulseId(ids: seq<nat>, k: nat, ps: seq<Pulse>)
    requires k <= |ids| && ids[k..] == PulseIds(ps) && ps != []
    ensures k < |ids| && ids[..k + 1] == ids[..k] + [ps[0].id] && ids[k + 1..] == PulseIds(ps[1..])
  {
    assert |ids[k..]| > 0 && ids[k..][0] == ps[0].id && ids[k + 1..] == ids[k..][1..];
  }

  lemma {:induction false} PutNone(p: Pool)
    ensures PutAll(p, []) == p
  {
  }

  lemma {:induction false} PutOneMore(p: Pool, ids: seq<nat>, id: nat)
    ensures PutAll(p, ids + [id]) == Put(PutAll(p, ids), id)
  {
    assert (ids + [id])[..|ids|] == ids;
  }

  lemma {:induction false} DropOneMore(all: seq<Pulse>, n: nat, pool: Pool)
    requires 0 < n <= |all|
    ensures DropTail(all, n - 1, pool) == Put(DropTail(all, n, pool), all[n - 1].id)
    decreases |all|
  {
    if n < |all| {
      DropOneMore(all[..|all| - 1], n, Put(pool, all[|all| - 1].id));
    } else {
      assert DropTail(all[..n - 1], n - 1, Put(pool, all[n - 1].id)) == Put(pool, all[n - 1].id);
    }
  }

  /** The counters of the search after the first `n` older pulses. */
  ghost predicate Scanned(r: Rule, pri: nat, ts: nat, older: seq<Pulse>, n: int, default: nat,
                          cnt: nat, first: nat, falses: nat, tmp: nat) {
    && 0 <= n <= |older|
    && cnt == 2 + Matches(r, pri, ts, older[..n]) && first == OldestMatch(r, pri, ts, older[..n], default)
    && falses == FalsesBeforeOldest(r, pri, ts, older[..n]) && falses + tmp + cnt == 2 + n
  }

  lemma {:induction false} ScanStart(r: Rule, pri: nat, ts: nat, older: seq<Pulse>, default: nat)
    ensures Scanned(r, pri, ts, older, 0, default, 2, default, 0, 0)
  {
  }

  lemma {:induction false} ScanStep(r: Rule, pri: nat, ts: nat, older: seq<Pulse>, n: nat, default: nat,
                                    cnt: nat, first: nat, falses: nat, tmp: nat)
    requires n < |older| && Scanned(r, pri, ts, older, n, default, cnt, first, falses, tmp)
    ensures if Match(r, pri, ts, older[n])
            then Scanned(r, pri, ts, older, n + 1, default, cnt + 1, older[n].ts, falses + tmp, 0)
            else Scanned(r, pri, ts, older, n + 1, default, cnt, first, falses, tmp + 1)
  {
    hide Match;
    assert older[..n + 1][..n] == older[..n];
  }

  /** Breaking off at the window border loses nothing, because the list is sorted. */
  lemma {:induction false} NoMatchBeyond(r: Rule, pri: nat, ts: nat, older: seq<Pulse>, n: nat, default: nat)
    requires n <= |older| && forall i, j :: 0 <= i < j < |older| ==> older[i].ts >= older[j].ts
    requires n < |older| ==> older[n].ts < Wrap64(ts - Duration(r, pri))
    ensures Matches(r, pri, ts, older) == Matches(r, pri, ts, older[..n])
    ensures OldestMatch(r, pri, ts, older, default) == OldestMatch(r, pri, ts, older[..n], default)
    ensures FalsesBeforeOldest(r, pri, ts, older) == FalsesBeforeOldest(r, pri, ts, older[..n])
    decreases |older|
  {
    hide GetMultiple;
    hide Duration;
    hide Wrap64;
    if n < |older| {
      var init := older[..|older| - 1];
      NoMatchBeyond(r, pri, ts, init, n, default);
      assert init[..n] == older[..n];
      assert older[|older| - 1].ts <= older[n].ts;
    } else {
      assert older[..n] == older;
    }
  }

  /** Breaking off at a too large interval loses nothing either. */
  lemma {:induction false} NoCandidateBeyond(r: Rule, pulses: seq<Pulse>, n: nat, m: nat, ts: nat, minCount: nat,
                                             ss: seq<PriSequence>, pool: Pool, mem: Memory)
    requires n <= m <= |pulses| && Sorted(pulses, r.tolerance, ts)
    requires n < |pulses| ==> Wrap32(ts - pulses[n].ts) > r.priMax
    ensures Create(r, pulses, m, ts, minCount, ss, pool, mem) == Create(r, pulses, n, ts, minCount, ss, pool, mem)
    decreases m
  {
    hide NewSequence;
    hide Get;
    if n < m {
      NoCandidateBeyond(r, pulses, n, m - 1, ts, minCount, ss, pool, mem);
      NotCandidate(r, pulses, n, m - 1, ts);
    }
  }

  lemma {:induction false} NotCandidate(r: Rule, pulses: seq<Pulse>, n: nat, m: nat, ts: nat)
    requires n <= m < |pulses| && Sorted(pulses, r.tolerance, ts) && Wrap32(ts - pulses[n].ts) > r.priMax
    ensures !Candidate(r, pulses[m], ts)
  {
    hide Wrap32;
    Wrap32Fits(ts - pulses[n].ts);
    Wrap32Fits(ts - pulses[m].ts);
  }

  lemma {:induction false} CreateFailed(r: Rule, pulses: seq<Pulse>, n: nat, m: nat, ts: nat, minCount: nat,
                                        ss: seq<PriSequence>, pool: Pool, mem: Memory)
    requires n <= m <= |pulses| && !Create(r, pulses, n, ts, minCount, ss, pool, mem).ok
    ensures Create(r, pulses, m, ts, minCount, ss, pool, mem) == Create(r, pulses, n, ts, minCount, ss, pool, mem)
    decreases m
  {
    hide NewSequence;
    hide Candidate;
    hide Get;
    if n < m { CreateFailed(r, pulses, n, m - 1, ts, minCount, ss, pool, mem); }
  }
}
