/**
 The timing of the simulated disk (machine/disk): seeking, rotation and the track
 buffer. Time is counted in ticks; at a time that is a multiple of 500 the head is at
 the start of the sector whose number on its track is time / 500 modulo 32.
 */
module Disks {
  // 32 tracks of 32 sectors; 500 ticks to seek past a track, and 500 to rotate past a sector

  type Sector = s: int | 0 <= s < 1024

  /**
   `arrived` is when the head came to the track it is on, and `bufferInit` the time from
   which the track buffer is filled.
   */
  datatype Head = Head(lastSector: Sector, bufferInit: int, arrived: int)

  function Abs(x: int): nat
  {
    if x < 0 then -x else x
  }

  function RoundUp(t: nat): nat
  {
    if t % 500 > 0 then t + (500 - t % 500) else t
  }

  /** `Disk::TimeToSeek`: the time to the track, and from there to the next sector boundary. */
  function TimeToSeek(h: Head, now: nat, newSector: Sector): (r: (nat, nat))
    ensures now + r.0 + r.1 == RoundUp(now + r.0)
  {
    var seek := Abs(newSector / 32 - h.lastSector / 32) * 500;
    var over := (now + seek) % 500;
    (seek, if over > 0 then 500 - over else 0)
  }

  /** `Disk::ModuloDiff` */
  function ModuloDiff(to: nat, from: nat): (d: nat)
    ensures d < 32
  {
    (to % 32 - from % 32 + 32) % 32
  }

  function TimeAfter(h: Head, now: nat, newSector: Sector): nat
  {
    var (seek, rotation) := TimeToSeek(h, now, newSector);
    now + seek + rotation
  }

  /** The read can be served by the track buffer. */
  predicate InBuffer(h: Head, now: nat, newSector: Sector, writing: bool)
    requires 0 <= h.bufferInit <= now
  {
    && !writing && TimeToSeek(h, now, newSector).0 == 0
    && (TimeAfter(h, now, newSector) - h.bufferInit) / 500 > ModuloDiff(newSector, h.bufferInit / 500)
  }

  /** `Disk::ComputeLatency` */
  function Latency(h: Head, now: nat, newSector: Sector, writing: bool): nat
    requires 0 <= h.bufferInit <= now
  {
    if InBuffer(h, now, newSector, writing) then 500
    else
      var (seek, rotation) := TimeToSeek(h, now, newSector);
      seek + (rotation + ModuloDiff(newSector, TimeAfter(h, now, newSector) / 500) * 500) + 500
  }

  /** `Disk::UpdateLast` */
  function Moved(h: Head, now: nat, newSector: Sector): Head
  {
    var (seek, rotation) := TimeToSeek(h, now, newSector);
    if seek != 0 then Head(newSector, now + seek + rotation, now + seek) else h.(lastSector := newSector)
  }

  // ------------------------------------------------------ what it means

  /** A sector starts to pass under the head at time `t`. */
  predicate Passes(sector: Sector, t: int)
  {
    t % 500 == 0 && (t / 500) % 32 == sector % 32
  }

  lemma RoundUpLeast(t: nat, u: int)
    requires u % 500 == 0 && t <= u
    ensures t <= RoundUp(t) <= u && RoundUp(t) % 500 == 0
  {
  }

  lemma ModuloDiffMeets(to: nat, from: nat)
    ensures (from + ModuloDiff(to, from)) % 32 == to % 32
  {
    var q, f, t := from / 32, from % 32, to % 32;
    assert from == 32 * q + f;
    if t >= f {
      assert from + ModuloDiff(to, from) == 32 * q + t;
    } else {
      assert from + ModuloDiff(to, from) == 32 * (q + 1) + t;
    }
  }

  /** `from + ModuloDiff(to, from)` is the first number from `from` on that is `to` modulo 32. */
  lemma ModuloDiffLeast(to: nat, from: nat, k: nat)
    requires from <= k && k % 32 == to % 32
    ensures from + ModuloDiff(to, from) <= k
  {
    ModuloDiffMeets(to, from);
  }

  /** The first time from the boundary `base` on at which the sector starts to pass. */
  function FirstPass(sector: Sector, base: nat): nat
  {
    base + ModuloDiff(sector, base / 500) * 500
  }

  lemma Multiple(k: nat)
    ensures (k * 500) % 500 == 0 && (k * 500) / 500 == k
  {
  }

  lemma FirstPassPasses(sector: Sector, base: nat)
    requires base % 500 == 0
    ensures Passes(sector, FirstPass(sector, base)) && base <= FirstPass(sector, base)
  {
    var k, d := base / 500, ModuloDiff(sector, base / 500);
    ModuloDiffMeets(sector, k);
    assert FirstPass(sector, base) == (k + d) * 500;
    Multiple(k + d);
  }

  lemma FirstPassLeast(sector: Sector, base: nat, t: nat)
    requires base % 500 == 0 && base <= t && Passes(sector, t)
    ensures FirstPass(sector, base) <= t
  {
    ModuloDiffLeast(sector, base / 500, t / 500);
  }

  // The head moves one track every 500 ticks.

  function Toward(track: int, target: int): int
  {
    if track < target then track + 1 else if track > target then track - 1 else track
  }

  /** The track that the head is on after `k` moves. */
  function TrackAfter(from: int, target: int, k: nat): int
  {
    if k == 0 then from else Toward(TrackAfter(from, target, k - 1), target)
  }

  /** The head is on the sector's track `t` ticks after it has set out. */
  predicate Arrives(h: Head, sector: Sector, t: nat)
  {
    TrackAfter(h.lastSector / 32, sector / 32, t / 500) == sector / 32
  }

  lemma {:induction false} TrackNears(from: int, target: int, k: nat)
    ensures Abs(target - TrackAfter(from, target, k)) ==
              if k <= Abs(target - from) then Abs(target - from) - k else 0
  {
    if k > 0 {
      TrackNears(from, target, k - 1);
    }
  }

  /** The seek ends when the head first is on the track. */
  lemma SeekLeast(h: Head, now: nat, sector: Sector, t: nat)
    ensures Arrives(h, sector, TimeToSeek(h, now, sector).0)
    ensures Arrives(h, sector, t) <==> TimeToSeek(h, now, sector).0 <= t
  {
    var from, target := h.lastSector / 32, sector / 32;
    TrackNears(from, target, Abs(target - from));
    TrackNears(from, target, t / 500);
    Multiple(Abs(target - from));
    assert t == 500 * (t / 500) + t % 500;
  }

  /**
   A request that the buffer does not serve: the transfer, of one sector's time, starts when
   the head first is on the track with the sector starting to pass.
   */
  lemma EarliestTransfer(h: Head, now: nat, sector: Sector, writing: bool)
    requires 0 <= h.bufferInit <= now && !InBuffer(h, now, sector, writing)
    ensures var start := now + Latency(h, now, sector, writing) - 500;
            && now <= start && Arrives(h, sector, start - now) && Passes(sector, start)
            && forall t | now <= t && Passes(sector, t) && Arrives(h, sector, t - now) :: start <= t
  {
    var ready := now + TimeToSeek(h, now, sector).0;
    var start := now + Latency(h, now, sector, writing) - 500;
    FirstFrom(h, now, sector, writing);
    SeekLeast(h, now, sector, start - now);
    forall t | now <= t && Passes(sector, t) && Arrives(h, sector, t - now)
      ensures start <= t
    {
      SeekLeast(h, now, sector, t - now);
    }
  }

  lemma FirstFrom(h: Head, now: nat, sector: Sector, writing: bool)
    requires 0 <= h.bufferInit <= now && !InBuffer(h, now, sector, writing)
    ensures var start := now + Latency(h, now, sector, writing) - 500;
            var ready := now + TimeToSeek(h, now, sector).0;
            && ready <= start && Passes(sector, start)
            && forall t | ready <= t && Passes(sector, t) :: start <= t
  {
    var ready := now + TimeToSeek(h, now, sector).0;
    var base := TimeAfter(h, now, sector);
    RoundUpLeast(ready, ready + (500 - ready % 500));
    FirstPassPasses(sector, base);
    forall t | ready <= t && Passes(sector, t)
      ensures FirstPass(sector, base) <= t
    {
      RoundUpLeast(ready, t);
      FirstPassLeast(sector, base, t);
    }
  }

  /**
   The buffer serves a read exactly if the head is on the track already and the whole
   sector has passed under it since the buffer was started, by the next sector boundary.
   */
  lemma BufferedIffPassed(h: Head, now: nat, sector: Sector, writing: bool)
    requires Inv(h, now)
    ensures InBuffer(h, now, sector, writing) <==>
              && !writing && sector / 32 == h.lastSector / 32
              && exists t | h.bufferInit <= t && t + 500 <= RoundUp(now) :: Passes(sector, t)
    // and then it takes the time of one sector
    ensures InBuffer(h, now, sector, writing) ==> Latency(h, now, sector, writing) == 500
  {
    if sector / 32 == h.lastSector / 32 {
      OnTrack(h, now, sector);
      PassedIff(sector, h.bufferInit, RoundUp(now));
    }
  }

  lemma OnTrack(h: Head, now: nat, sector: Sector)
    requires Inv(h, now) && sector / 32 == h.lastSector / 32
    ensures TimeAfter(h, now, sector) == RoundUp(now) && h.bufferInit <= RoundUp(now)
    ensures RoundUp(now) % 500 == 0 && h.bufferInit % 500 == 0
  {
    RoundUpLeast(now, now + (500 - now % 500));
    RoundUpLeast(h.arrived, h.arrived + (500 - h.arrived % 500));
  }

  /** Between two boundaries a whole sector passes exactly if they are further apart than the way to it. */
  lemma PassedIff(sector: Sector, init: nat, after: nat)
    requires init <= after && after % 500 == 0 && init % 500 == 0
    ensures (exists t: int | init <= t && t + 500 <= after :: Passes(sector, t)) <==>
              (after - init) / 500 > ModuloDiff(sector, init / 500)
  {
    FirstPassPasses(sector, init);
    Quotient(after, init, ModuloDiff(sector, init / 500));
    if t: int :| init <= t && t + 500 <= after && Passes(sector, t) {
      FirstPassLeast(sector, init, t);
    }
  }

  lemma Quotient(after: nat, init: nat, d: nat)
    requires init <= after && after % 500 == 0 && init % 500 == 0
    ensures (after - init) / 500 > d <==> init + d * 500 <= after - 500
  {
  }

  // ------------------------------------------------------ whole runs

  /** Of a disk that is idle at `now`. */
  ghost predicate Inv(h: Head, now: int)
  {
    && 0 <= h.arrived <= h.bufferInit <= now
    && h.bufferInit == RoundUp(h.arrived)
  }

  /** The head comes to the sector's track at time `t`, and not before. */
  ghost predicate FirstOn(h: Head, now: nat, sector: Sector, t: int)
  {
    now <= t && forall u: nat :: Arrives(h, sector, u) <==> t <= now + u
  }

  lemma FirstOnTrack(h: Head, now: nat, sector: Sector)
    ensures FirstOn(h, now, sector, now + TimeToSeek(h, now, sector).0)
  {
    forall u: nat
      ensures Arrives(h, sector, u) <==> TimeToSeek(h, now, sector).0 <= u
    {
      SeekLeast(h, now, sector, u);
    }
  }

  lemma MovedKeeps(h: Head, now: nat, sector: Sector, writing: bool)
    requires Inv(h, now)
    ensures Latency(h, now, sector, writing) >= 500
    ensures Inv(Moved(h, now, sector), now + Latency(h, now, sector, writing))
    ensures h.bufferInit % 500 == 0 && Moved(h, now, sector).bufferInit % 500 == 0
    // the buffer starts over exactly when the head moves to another track
    ensures Moved(h, now, sector).lastSector == sector
    ensures if sector / 32 == h.lastSector / 32 then Moved(h, now, sector).bufferInit == h.bufferInit
            else Moved(h, now, sector).arrived > now && FirstOn(h, now, sector, Moved(h, now, sector).arrived)
  {
    FirstOnTrack(h, now, sector);
    RoundUpLeast(h.arrived, h.arrived + (500 - h.arrived % 500));
    var ready := now + TimeToSeek(h, now, sector).0;
    RoundUpLeast(ready, ready + (500 - ready % 500));
  }

  /** A request that is made `delay` ticks after the one before it was done. */
  datatype Request = Request(sector: Sector, writing: bool, delay: nat)

  /** The times at which requests are done, one after another. */
  ghost function Completions(h: Head, now: nat, requests: seq<Request>): seq<int>
    requires Inv(h, now)
    decreases |requests|
  {
    if requests == [] then []
    else
      var r := requests[0];
      var start := now + r.delay;
      MovedKeeps(h, start, r.sector, r.writing);
      var done := start + Latency(h, start, r.sector, r.writing);
      [done] + Completions(Moved(h, start, r.sector), done, requests[1..])
  }

  /** In every sequence of requests each takes at least the time of a transfer, so no two overlap. */
  lemma {:induction false} RunKeeps(h: Head, now: nat, requests: seq<Request>, i: nat)
    requires Inv(h, now) && i < |requests|
    ensures |Completions(h, now, requests)| == |requests|
    ensures var cs := Completions(h, now, requests);
            cs[i] >= (if i == 0 then now else cs[i - 1]) + requests[i].delay + 500
    decreases |requests|
  {
    var r := requests[0];
    var start := now + r.delay;
    MovedKeeps(h, start, r.sector, r.writing);
    var done := start + Latency(h, start, r.sector, r.writing);
    var rest := Completions(Moved(h, start, r.sector), done, requests[1..]);
    assert Completions(h, now, requests) == [done] + rest;
    if |requests| > 1 {
      RunKeeps(Moved(h, start, r.sector), done, requests[1..], if i > 0 then i - 1 else 0);
    }
  }

  // ------------------------------------------------------ the class

  class Disk {
    var lastSector: Sector
    var bufferInit: int
    var active: bool
    var totalTicks: nat
    ghost var arrived: int
    ghost var doneAt: int

    ghost function Position(): Head
      reads this
    {
      Head(lastSector, bufferInit, arrived)
    }

    /** A request in progress will be done when the buffer has started. */
    ghost predicate Valid()
      reads this
    {
      Inv(Position(), if active then doneAt else totalTicks)
    }

    constructor (now: nat)
      ensures Valid() && !active && totalTicks == now && lastSector == 0 && bufferInit == 0
    {
      lastSector, bufferInit, active, totalTicks, arrived, doneAt := 0, 0, false, now, 0, 0;
    }

    method ComputeLatency(newSector: Sector, writing: bool) returns (ticks: int)
      requires Valid() && !active
      ensures ticks == Latency(Position(), totalTicks, newSector, writing)
    {
      var (seek, rotation) := TimeToSeek(Head(lastSector, bufferInit, 0), totalTicks, newSector);
      var timeAfter := totalTicks + seek + rotation;
      if !writing && seek == 0 && (timeAfter - bufferInit) / 500 > ModuloDiff(newSector, bufferInit / 500) {
        return 500;
      }
      rotation := rotation + ModuloDiff(newSector, timeAfter / 500) * 500;
      return seek + rotation + 500;
    }

    method UpdateLast(newSector: Sector)
      requires Valid() && !active
      modifies this`lastSector, this`bufferInit, this`arrived
      ensures Position() == Moved(old(Position()), totalTicks, newSector)
    {
      var (seek, rotate) := TimeToSeek(Head(lastSector, bufferInit, 0), totalTicks, newSector);
      if seek != 0 {
        bufferInit := totalTicks + seek + rotate;
        arrived := totalTicks + seek;
      }
      lastSector := newSector;
    }

    /** A read or a write; the interrupt comes after `ticks`. */
    method StartRequest(sectorNumber: Sector, writing: bool) returns (ticks: int)
      requires Valid() && !active
      modifies this
      ensures Valid() && active && ticks >= 500 && totalTicks == old(totalTicks)
      ensures ticks == Latency(old(Position()), totalTicks, sectorNumber, writing)
      ensures Position() == Moved(old(Position()), totalTicks, sectorNumber) && doneAt == totalTicks + ticks
    {
      MovedKeeps(Position(), totalTicks, sectorNumber, writing);
      ticks := ComputeLatency(sectorNumber, writing);
      UpdateLast(sectorNumber);
      active := true;
      doneAt := totalTicks + ticks;
    }

    method HandleInterrupt()
      requires Valid() && active && totalTicks >= doneAt
      modifies this`active
      ensures Valid() && !active
    {
      active := false;
    }
  }
}
