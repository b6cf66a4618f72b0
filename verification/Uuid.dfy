/**
  The version 1 UUID generator of `uuid/uuid.c`: `get_current_time`, `read_state`, `write_state`,
  `uuid_create`, `format_uuid_v1` and `uuid_compare`. One `Generator` is one run of a process.
  The clock is the sequence of readings that calls to `get_system_time` will return, the value of
  `rand()` is a parameter, and the `state` file is a field.
*/
module Uuid {
  import opened Common

  const UUIDS_PER_TICK: nat := 1024
  const SAVE_INTERVAL: nat := 100_000_000

  datatype Uuid = Uuid(timeLow: nat, timeMid: nat, timeHiAndVersion: nat,
                       clockSeqHiAndReserved: nat, clockSeqLow: nat, node: seq<nat>)

  // ---------- Format ----------

  function FormatV1(clockSeq: nat, timestamp: nat, node: seq<nat>): Uuid {
    Uuid(timestamp % 0x1_0000_0000,
         timestamp / 0x1_0000_0000 % 0x1_0000,
         timestamp / 0x1_0000_0000_0000 % 0x1000 + 0x1000,
         clockSeq / 0x100 % 0x40 + 0x80,
         clockSeq % 0x100,
         node)
  }

  function TimestampOf(u: Uuid): int {
    u.timeLow + u.timeMid * 0x1_0000_0000 + (u.timeHiAndVersion - 0x1000) * 0x1_0000_0000_0000
  }

  function ClockSeqOf(u: Uuid): int {
    u.clockSeqLow + (u.clockSeqHiAndReserved - 0x80) * 0x100
  }

  /** The fields of a version 1 UUID can be read back: the low 60 bits and the low 14 bits. */
  lemma FormatRoundTrip(clockSeq: nat, timestamp: nat, node: seq<nat>)
    ensures var u := FormatV1(clockSeq, timestamp, node);
            && TimestampOf(u) == timestamp % 0x1000_0000_0000_0000
            && ClockSeqOf(u) == clockSeq % 0x4000
            && u.node == node
            && u.timeHiAndVersion / 0x1000 == 1 && u.clockSeqHiAndReserved / 0x40 == 2
            && u.timeLow < 0x1_0000_0000 && u.timeMid < 0x1_0000 && u.clockSeqLow < 0x100
            && u.timeLow + 0x1_0000_0000 * u.timeMid + 0x1_0000_0000_0000 * (u.timeHiAndVersion - 0x1000)
               == timestamp % 0x1000_0000_0000_0000
  {
    TimestampParts(timestamp);
  }

  lemma TimestampParts(t: nat)
    ensures t % 0x1_0000_0000 + t / 0x1_0000_0000 % 0x1_0000 * 0x1_0000_0000
            + t / 0x1_0000_0000_0000 % 0x1000 * 0x1_0000_0000_0000
         == t % 0x1000_0000_0000_0000
    ensures (t / 0x1_0000_0000_0000 % 0x1000 + 0x1000) / 0x1000 == 1
  {
    var high := t / 0x1_0000_0000;
    var top := high / 0x1_0000;
    assert top == t / 0x1_0000_0000_0000;
    assert t == t % 0x1_0000_0000 + high * 0x1_0000_0000;
    assert high == high % 0x1_0000 + top * 0x1_0000;
    assert top == top % 0x1000 + top / 0x1000 * 0x1000;
    var low := t % 0x1_0000_0000 + high % 0x1_0000 * 0x1_0000_0000 + top % 0x1000 * 0x1_0000_0000_0000;
    LowPart(t, top / 0x1000, low, 0x1000_0000_0000_0000);
  }

  lemma LowPart(c: nat, k: nat, low: nat, m: nat)
    requires c == low + k * m && low < m
    ensures c % m == low
  {
    var q, r := c / m, c % m;
    var d := q - k;
    assert m * d == low - r;
    if d > 0 {
    } else if d < 0 {
    }
  }

  // ---------- The clock ----------

  /** The statics of `get_current_time`: the last reading and the UUIDs made with it. */
  datatype Ticker = Ticker(last: nat, count: nat)

  datatype Tick = Tick(ticker: Ticker, rest: seq<nat>)

  /** What the readings lead to: the first that differs, or the first at all while the counter has room. */
  function NextTick(t: Ticker, readings: seq<nat>): Option<Tick> {
    if readings == [] then None
    else if readings[0] != t.last then Some(Tick(Ticker(readings[0], 0), readings[1..]))
    else if t.count < UUIDS_PER_TICK then Some(Tick(Ticker(t.last, t.count + 1), readings[1..]))
    else NextTick(t, readings[1..])
  }

  // ---------- Runs ----------

  /** One UUID with the clock reading and the state it was made from. */
  datatype Issue = Issue(reading: nat, timestamp: nat, clockSeq: word16)

  function UuidOf(i: Issue, node: seq<nat>): Uuid {
    FormatV1(i.clockSeq, i.timestamp, node)
  }

  /** How one UUID of a run follows from the one before, whatever the clock does. */
  predicate Follows(p: Issue, q: Issue) {
    && q.timestamp == (if q.reading == p.reading then p.timestamp + 1 else q.reading)
    && q.clockSeq == (if q.timestamp < p.timestamp then (p.clockSeq + 1) % 0x1_0000 else p.clockSeq)
  }

  predicate Chain(run: seq<Issue>) {
    && (forall i :: 0 <= i < |run| ==> run[i].reading <= run[i].timestamp <= run[i].reading + UUIDS_PER_TICK)
    && (forall i :: 0 <= i < |run| - 1 ==> Follows(run[i], run[i + 1]))
  }

  lemma {:induction false} TickAdvances(t: Ticker, readings: seq<nat>)
    requires t.count <= UUIDS_PER_TICK
    ensures match NextTick(t, readings)
            case None => true
            case Some(n) =>
              if n.ticker.last == t.last then n.ticker.count == t.count + 1 <= UUIDS_PER_TICK
              else n.ticker.count == 0
  {
    if readings == [] || readings[0] != t.last || t.count != UUIDS_PER_TICK {
    } else {
      TickAdvances(t, readings[1..]);
    }
  }

  lemma ChainGrows(run: seq<Issue>, q: Issue)
    requires Chain(run)
    requires q.reading <= q.timestamp <= q.reading + UUIDS_PER_TICK
    requires run != [] ==> Follows(run[|run| - 1], q)
    ensures Chain(run + [q])
  {
    hide Follows;
    var more := run + [q];
    forall i | 0 <= i < |more| - 1
      ensures Follows(more[i], more[i + 1])
    {
      if i < |run| - 1 {
        assert Follows(run[i], run[i + 1]);
      }
    }
  }

  /** The clock sequence, given the state that is known: a new one without state or for another node. */
  function NextClockSeq(known: Option<Saved>, node: seq<nat>, random: nat, timestamp: nat): word16 {
    match known
    case None => random % 0x1_0000
    case Some(last) =>
      if last.node != node then random % 0x1_0000
      else if timestamp < last.ts then (last.clockSeq + 1) % 0x1_0000
      else last.clockSeq
  }

  class Generator {
    const node: seq<nat>
    var clock: seq<nat>
    var file: Option<Saved>
    var ticking: bool
    var timeLast: nat
    var uuidsThisTick: nat
    var stateRead: bool
    var st: Saved
    var saving: bool
    var nextSave: nat
    ghost var run: seq<Issue>

    /** The state after any number of calls, tied to the UUIDs made so far. */
    ghost predicate Valid()
      reads this
    {
      && Chain(run)
      && uuidsThisTick <= UUIDS_PER_TICK
      && if run == [] then
           timeLast == 0 && !saving && !stateRead && (ticking ==> uuidsThisTick == UUIDS_PER_TICK)
         else
           var i := run[|run| - 1];
           && ticking && saving
           && timeLast == i.reading
           && uuidsThisTick == i.timestamp - i.reading
           && st == Saved(i.timestamp, node, i.clockSeq)
           && (stateRead || file == Some(st))
    }

    ghost function Counter(): Ticker
      reads this
    {
      if ticking then Ticker(timeLast, uuidsThisTick) else Ticker(timeLast, UUIDS_PER_TICK)
    }

    /** The readings left for UUIDs: the first call of a process throws one away. */
    ghost function Readings(): seq<nat>
      reads this
    {
      if ticking || clock == [] then clock else clock[1..]
    }

    constructor (node: seq<nat>, clock: seq<nat>, file: Option<Saved>)
      ensures Valid() && run == [] && !ticking
      ensures this.node == node && this.clock == clock && this.file == file
    {
      this.node := node;
      this.clock := clock;
      this.file := file;
      ticking, timeLast, uuidsThisTick := false, 0, 0;
      stateRead, st := false, Saved(0, [], 0);
      saving, nextSave := false, 0;
      run := [];
    }

    method GetCurrentTime() returns (timestamp: Option<nat>)
      modifies this`clock, this`ticking, this`timeLast, this`uuidsThisTick
      ensures var tick := NextTick(old(Counter()), old(Readings()));
              match tick
              case None =>
                && timestamp == None && clock == [] && Counter() == old(Counter())
                && (old(ticking) ==> ticking) && (!ticking ==> uuidsThisTick == old(uuidsThisTick))
              case Some(t) =>
                && ticking && clock == t.rest && Counter() == t.ticker
                && timestamp == Some(timeLast + uuidsThisTick)
    {
      if !ticking {
        if clock == [] {
          return None;
        }
        clock := clock[1..];
        uuidsThisTick := UUIDS_PER_TICK;
        ticking := true;
      }
      while clock != []
        invariant ticking
        invariant timeLast == old(timeLast) && Counter() == old(Counter())
        invariant NextTick(Counter(), clock) == NextTick(old(Counter()), old(Readings()))
        decreases |clock|
      {
        var timeNow := clock[0];
        clock := clock[1..];
        if timeLast != timeNow {
          uuidsThisTick := 0;
          timeLast := timeNow;
          return Some(timeNow + uuidsThisTick);
        }
        if uuidsThisTick < UUIDS_PER_TICK {
          uuidsThisTick := uuidsThisTick + 1;
          return Some(timeNow + uuidsThisTick);
        }
      }
      timestamp := None;
    }

    method ReadState() returns (found: bool, saved: Saved)
      modifies this`stateRead, this`st
      ensures found == (old(stateRead) || file.Some?) == stateRead
      ensures st == if !old(stateRead) && file.Some? then file.value else old(st)
      ensures saved == st
    {
      if !stateRead {
        if file.None? {
          return false, st;
        }
        st := file.value;
        stateRead := true;
      }
      return true, st;
    }

    /** The state before a call: in memory, or in the file if it was not read yet. */
    ghost function Known(): Option<Saved>
      reads this
    {
      if stateRead then Some(st) else file
    }

    /** The clock sequence for a timestamp, after the state was read. */
    method ChooseClockSeq(timestamp: nat, random: nat) returns (clockSeq: word16)
      modifies this`stateRead, this`st
      ensures clockSeq == NextClockSeq(old(Known()), node, random, timestamp)
      ensures stateRead == old(Known()).Some?
      ensures old(Known()).Some? ==> st == old(Known()).value
    {
      var found, last := ReadState();
      clockSeq := last.clockSeq;
      if !found || node != last.node {
        clockSeq := random % 0x1_0000;
      } else if timestamp < last.ts {
        clockSeq := (clockSeq + 1) % 0x1_0000;
      }
    }

    method WriteState(saved: Saved)
      modifies this`st, this`file, this`saving, this`nextSave
      ensures st == saved && saving
      ensures !old(saving) || saved.ts >= old(nextSave) ==>
                file == Some(saved) && nextSave == saved.ts + SAVE_INTERVAL
      ensures old(saving) && saved.ts < old(nextSave) ==> file == old(file) && nextSave == old(nextSave)
    {
      if !saving {
        nextSave := saved.ts;
        saving := true;
      }
      st := saved;
      if saved.ts >= nextSave {
        file := Some(st);
        nextSave := saved.ts + SAVE_INTERVAL;
      }
    }

    /**
      One call of `uuid_create`. After the first UUID of a process the random value has no
      influence: every later UUID follows from the one before it.
    */
    method Create(random: nat) returns (uuid: Option<Uuid>)
      requires Valid()
      modifies this
      ensures Valid()
      ensures match NextTick(old(Counter()), old(Readings()))
              case None => uuid == None && run == old(run)
              case Some(t) =>
                && run != [] && run[..|run| - 1] == old(run)
                && run[|run| - 1].reading == t.ticker.last
                && run[|run| - 1].timestamp == t.ticker.last + t.ticker.count
                && Counter() == t.ticker && Readings() == t.rest
                && uuid == Some(UuidOf(run[|run| - 1], node))
                && run[|run| - 1].clockSeq == NextClockSeq(old(Known()), node, random, run[|run| - 1].timestamp)
    {
      hide NextTick, Chain, FormatV1;
      TickAdvances(Counter(), Readings());
      var now := GetCurrentTime();
      if now.None? {
        return None;
      }
      var timestamp := now.value;
      var clockSeq := ChooseClockSeq(timestamp, random);
      WriteState(Saved(timestamp, node, clockSeq));
      ghost var issue := Issue(timeLast, timestamp, clockSeq);
      ChainGrows(run, issue);
      run := run + [issue];
      return Some(FormatV1(clockSeq, timestamp, node));
    }
  }

  /** `uuid_state`. */
  datatype Saved = Saved(ts: nat, node: seq<nat>, clockSeq: word16)

  // ---------- Safety over whole runs ----------

  predicate Distinct(run: seq<Issue>, node: seq<nat>) {
    forall i, j :: 0 <= i < j < |run| ==> UuidOf(run[i], node) != UuidOf(run[j], node)
  }

  /** The clock moved on exactly to the timestamp that was handed out last. */
  predicate Collides(p: Issue, q: Issue) {
    q.reading != p.reading && q.reading == p.timestamp
  }

  predicate Collisions(run: seq<Issue>) {
    exists i :: 0 <= i < |run| - 1 && Collides(run[i], run[i + 1])
  }

  /** How often the timestamp went backwards up to position n. */
  function StepsBack(run: seq<Issue>, n: nat): nat
    requires n < |run|
  {
    if n == 0 then 0 else StepsBack(run, n - 1) + if run[n].timestamp < run[n - 1].timestamp then 1 else 0
  }

  /** The clock sequence value counts the steps back. */
  lemma {:induction false} ClockSeqCounts(run: seq<Issue>, n: nat)
    requires Chain(run) && n < |run|
    ensures run[n].clockSeq == (run[0].clockSeq + StepsBack(run, n)) % 0x1_0000
  {
    if n == 0 {
    } else {
      ClockSeqCounts(run, n - 1);
      assert Follows(run[n - 1], run[n - 1 + 1]);
    }
  }

  /** Between steps back timestamps never decrease, and without collisions they strictly increase. */
  lemma {:induction false} TimestampsIncrease(run: seq<Issue>, i: nat, j: nat)
    requires Chain(run) && i < j < |run|
    ensures StepsBack(run, i) <= StepsBack(run, j)
    ensures StepsBack(run, i) == StepsBack(run, j) ==> run[i].timestamp <= run[j].timestamp
    ensures StepsBack(run, i) == StepsBack(run, j) && !Collisions(run) ==> run[i].timestamp < run[j].timestamp
    decreases j
  {
    assert Follows(run[j - 1], run[j - 1 + 1]);
    assert !Collisions(run) ==> !Collides(run[j - 1], run[j - 1 + 1]);
    if i == j - 1 {
    } else {
      TimestampsIncrease(run, i, j - 1);
    }
  }

  lemma {:induction false} StepsBackGrow(run: seq<Issue>, i: nat, j: nat)
    requires i <= j < |run|
    ensures StepsBack(run, i) <= StepsBack(run, j)
  {
    if i == j {
    } else {
      StepsBackGrow(run, i, j - 1);
    }
  }

  lemma PairDiffers(run: seq<Issue>, node: seq<nat>, i: nat, j: nat)
    requires Chain(run) && i < j < |run| && !Collisions(run)
    requires run[i].timestamp < 0x1000_0000_0000_0000 && run[j].timestamp < 0x1000_0000_0000_0000
    requires StepsBack(run, |run| - 1) < 0x4000
    ensures UuidOf(run[i], node) != UuidOf(run[j], node)
  {
    hide FormatV1, TimestampOf, ClockSeqOf, StepsBack, Chain, Collisions;
    FormatRoundTrip(run[i].clockSeq, run[i].timestamp, node);
    FormatRoundTrip(run[j].clockSeq, run[j].timestamp, node);
    if UuidOf(run[i], node) == UuidOf(run[j], node) {
      ClockSeqCounts(run, i);
      ClockSeqCounts(run, j);
      TimestampsIncrease(run, i, j);
      StepsBackGrow(run, j, |run| - 1);
    }
  }

  /**
    The UUIDs of one run are pairwise distinct exactly when the clock never moves on to the very
    timestamp that was handed out last.
  */
  lemma DistinctUnlessCollision(run: seq<Issue>, node: seq<nat>)
    requires Chain(run)
    requires run != [] ==> StepsBack(run, |run| - 1) < 0x4000
    requires forall i :: 0 <= i < |run| ==> run[i].timestamp < 0x1000_0000_0000_0000
    ensures Distinct(run, node) <==> !Collisions(run)
  {
    if Collisions(run) {
      var i :| 0 <= i < |run| - 1 && Collides(run[i], run[i + 1]);
      assert Follows(run[i], run[i + 1]);
      assert UuidOf(run[i], node) == UuidOf(run[i + 1], node);
    } else {
      forall i, j | 0 <= i < j < |run|
        ensures UuidOf(run[i], node) != UuidOf(run[j], node)
      {
        PairDiffers(run, node, i, j);
      }
    }
  }

  /** A clock that moves forward by more than `UUIDS_PER_TICK` whenever it moves forward never collides. */
  lemma CoarseClockIsSafe(run: seq<Issue>)
    requires Chain(run)
    requires forall i :: 0 <= i < |run| - 1 && run[i].reading < run[i + 1].reading ==>
                           run[i].reading + UUIDS_PER_TICK < run[i + 1].reading
    ensures !Collisions(run)
  {
    forall i | 0 <= i < |run| - 1
      ensures !Collides(run[i], run[i + 1])
    {
      assert run[i].reading <= run[i].timestamp <= run[i].reading + UUIDS_PER_TICK;
    }
  }

  /** Three calls at clock readings 5, 5 and 6 make the same UUID twice. */
  method DuplicateRun(node: seq<nat>, random: nat) returns (second: Option<Uuid>, third: Option<Uuid>)
    ensures second.Some? && second == third
  {
    var generator := new Generator(node, [5, 5, 5, 6], None);
    var first := generator.Create(random);
    assert generator.Readings() == [5, 6];
    second := generator.Create(random);
    assert generator.Readings() == [6];
    assert generator.Counter() == Ticker(5, 1);
    ghost var before := generator.run;
    third := generator.Create(random);
    assert generator.run[|before|] == generator.run[|generator.run| - 1];
    assert Follows(generator.run[|before| - 1], generator.run[|before| - 1 + 1]);
  }

  // ---------- uuid_compare ----------

  /** The fields in the order in which `uuid_compare` looks at them. */
  function Fields(u: Uuid): seq<nat> {
    [u.timeLow, u.timeMid, u.timeHiAndVersion, u.clockSeqHiAndReserved, u.clockSeqLow] + u.node
  }

  /** Position of the first difference, or the length if there is none. */
  ghost predicate FirstDifference(a: seq<nat>, b: seq<nat>, k: int) {
    && 0 <= k <= |a| == |b|
    && (forall i :: 0 <= i < k ==> a[i] == b[i])
    && (k < |a| ==> a[k] != b[k])
  }

  ghost predicate Compares(a: seq<nat>, b: seq<nat>, result: int) {
    exists k :: FirstDifference(a, b, k)
                && result == if k == |a| then 0 else if a[k] < b[k] then -1 else 1
  }

  method Compare(u1: Uuid, u2: Uuid) returns (result: int)
    requires |u1.node| == |u2.node| == 6
    ensures Compares(Fields(u1), Fields(u2), result)
  {
    ghost var a, b := Fields(u1), Fields(u2);
    if u1.timeLow != u2.timeLow {
      assert FirstDifference(a, b, 0);
      return if u1.timeLow < u2.timeLow then -1 else 1;
    }
    if u1.timeMid != u2.timeMid {
      assert FirstDifference(a, b, 1);
      return if u1.timeMid < u2.timeMid then -1 else 1;
    }
    if u1.timeHiAndVersion != u2.timeHiAndVersion {
      assert FirstDifference(a, b, 2);
      return if u1.timeHiAndVersion < u2.timeHiAndVersion then -1 else 1;
    }
    if u1.clockSeqHiAndReserved != u2.clockSeqHiAndReserved {
      assert FirstDifference(a, b, 3);
      return if u1.clockSeqHiAndReserved < u2.clockSeqHiAndReserved then -1 else 1;
    }
    if u1.clockSeqLow != u2.clockSeqLow {
      assert FirstDifference(a, b, 4);
      return if u1.clockSeqLow < u2.clockSeqLow then -1 else 1;
    }
    var i := 0;
    while i < 6
      invariant 0 <= i <= 6
      invariant forall k :: 0 <= k < 5 + i ==> a[k] == b[k]
    {
      assert a[5 + i] == u1.node[i] && b[5 + i] == u2.node[i];
      if u1.node[i] < u2.node[i] {
        assert FirstDifference(a, b, 5 + i);
        return -1;
      }
      if u1.node[i] > u2.node[i] {
        assert FirstDifference(a, b, 5 + i);
        return 1;
      }
      i := i + 1;
    }
    assert FirstDifference(a, b, 11);
    result := 0;
  }

  /** The order of `uuid_compare` is total, antisymmetric and transitive; 0 means the same UUID. */
  lemma CompareIsTotalOrder(u1: Uuid, u2: Uuid, u3: Uuid, r12: int, r21: int, r23: int, r13: int)
    requires |u1.node| == |u2.node| == |u3.node| == 6
    requires Compares(Fields(u1), Fields(u2), r12) && Compares(Fields(u2), Fields(u1), r21)
    requires Compares(Fields(u2), Fields(u3), r23) && Compares(Fields(u1), Fields(u3), r13)
    ensures r12 == 0 <==> u1 == u2
    ensures r21 == -r12
    ensures r12 <= 0 && r23 <= 0 ==> r13 <= 0
  {
    var a, b, c := Fields(u1), Fields(u2), Fields(u3);
    hide Fields;
    SameFields(u1, u2);
    var k12 :| FirstDifference(a, b, k12) && r12 == if k12 == |a| then 0 else if a[k12] < b[k12] then -1 else 1;
    var k21 :| FirstDifference(b, a, k21) && r21 == if k21 == |b| then 0 else if b[k21] < a[k21] then -1 else 1;
    var k23 :| FirstDifference(b, c, k23) && r23 == if k23 == |b| then 0 else if b[k23] < c[k23] then -1 else 1;
    var k13 :| FirstDifference(a, c, k13) && r13 == if k13 == |a| then 0 else if a[k13] < c[k13] then -1 else 1;
    if r12 <= 0 && r23 <= 0 {
      Between(a, b, c, k12, k23, k13);
    }
  }

  lemma Between(a: seq<nat>, b: seq<nat>, c: seq<nat>, k12: int, k23: int, k13: int)
    requires FirstDifference(a, b, k12) && FirstDifference(b, c, k23) && FirstDifference(a, c, k13)
    requires k12 < |a| ==> a[k12] < b[k12]
    requires k23 < |a| ==> b[k23] < c[k23]
    ensures k13 < |a| ==> a[k13] < c[k13]
  {
    var k := if k12 < k23 then k12 else k23;
    assert FirstDifference(a, c, k);
  }

  lemma SameFields(u1: Uuid, u2: Uuid)
    requires |u1.node| == |u2.node| == 6
    ensures |Fields(u1)| == |Fields(u2)| == 11
    ensures Fields(u1) == Fields(u2) ==> u1 == u2
  {
    var a, b := Fields(u1), Fields(u2);
    if a == b {
      assert u1.node == a[5..] && u2.node == b[5..];
      assert a[0] == b[0] && a[1] == b[1] && a[2] == b[2] && a[3] == b[3] && a[4] == b[4];
    }
  }
}
