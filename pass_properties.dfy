/**
 * What one reconciliation pass promises. The plan of a pass is the creates
 * and patches the calendar events call for, in calendar order (fixed by what
 * the pass fetched), then a delete for every owned event left unprocessed, in
 * fetch order. Which events are left unprocessed depends on Discord's
 * replies, since the id a create or patch returns is marked processed.
 * Discord's replies also decide how much of the plan is issued: everything,
 * or up to and including the first failing write.
 */
module PassProperties {
  import opened Wrappers
  import opened Text
  import opened EventTypes
  import opened ChannelResolver
  import opened Mapper
  import opened Comparator
  import opened Reconciler

  /** The ids of a list of Discord events. */
  function IdsOf(events: seq<DiscordEvent>): (r: set<string>)
    ensures forall e :: e in events ==> e.id in r
    ensures forall id :: id in r ==> exists e :: e in events && e.id == id
  {
    set e | e in events :: e.id
  }

  /** No two events of the list share an id, as Discord's snowflake ids guarantee. */
  predicate DistinctIds(events: seq<DiscordEvent>) {
    forall i, j :: 0 <= i < j < |events| ==> events[i].id != events[j].id
  }

  /**
   * The write one mapped calendar event calls for: none when it is skipped or
   * its match is already equal, a patch of the first matching owned event
   * when they differ, a create when nothing matches.
   */
  function PlanOne(item: Converted, owned: seq<DiscordEvent>): (r: seq<Op>)
    ensures item.payload.None? ==> r == []
    ensures item.payload.Some? && FindExisting(owned, item.calEvent.htmlLink).None?
            ==> r == [Create(item.payload.value)]
    ensures item.payload.Some? && FindExisting(owned, item.calEvent.htmlLink).Some?
            ==> var e := owned[FindExisting(owned, item.calEvent.htmlLink).value];
                r == if CompareEvents(item.payload.value, e.data) then [] else [Patch(e.id, item.payload.value)]
  {
    if item.payload.None? then []
    else
      match Decide(item.payload.value, item.calEvent.htmlLink, owned)
      case Keep(_) => []
      case Update(id, data) => [Patch(id, data)]
      case Insert(data) => [Create(data)]
  }

  /**
   * The creates and patches of the calendar loop, in calendar order. Each
   * carries the payload mapped from one of the calendar events, and each
   * patch targets an owned event.
   */
  function Planned(items: seq<Converted>, owned: seq<DiscordEvent>): seq<Op>
    decreases |items|
  {
    if items == [] then [] else Planned(items[..|items| - 1], owned) + PlanOne(items[|items| - 1], owned)
  }

  /**
   * Every planned write is a create or a patch carrying the payload mapped
   * from one of the calendar events, and every patch targets an owned event.
   */
  lemma {:induction false} PlannedWrites(items: seq<Converted>, owned: seq<DiscordEvent>)
    ensures forall op :: op in Planned(items, owned)
                         ==> (op.Create? || op.Patch?) && exists i :: 0 <= i < |items| && items[i].payload == Some(op.data)
    ensures forall op :: op in Planned(items, owned) && op.Patch? ==> op.id in IdsOf(owned)
    decreases |items|
  {
    if items != [] {
      var init := items[..|items| - 1];
      PlannedWrites(init, owned);
      assert forall i :: 0 <= i < |init| ==> init[i] == items[i];
    }
  }

  /** The id of the owned event one mapped calendar event matched and found equal, if any. */
  function KeptOne(item: Converted, owned: seq<DiscordEvent>): set<string> {
    if item.payload.Some? && Decide(item.payload.value, item.calEvent.htmlLink, owned).Keep?
    then {Decide(item.payload.value, item.calEvent.htmlLink, owned).id}
    else {}
  }

  /** The ids of the owned events that a mapped calendar event matched and found equal. */
  function KeptIds(items: seq<Converted>, owned: seq<DiscordEvent>): (r: set<string>)
    ensures r <= IdsOf(owned)
    decreases |items|
  {
    if items == [] then {} else KeptIds(items[..|items| - 1], owned) + KeptOne(items[|items| - 1], owned)
  }

  /** The ids Discord returned to the successful writes numbered `lo` up to `hi`. */
  function ReturnedIds(answer: nat -> Reply, lo: nat, hi: nat): (r: set<string>)
    ensures forall n :: lo <= n < hi && answer(n).Ok? ==> answer(n).id in r
    ensures forall id :: id in r ==> exists n :: lo <= n < hi && answer(n) == Ok(id)
    decreases hi
  {
    if hi <= lo then {}
    else ReturnedIds(answer, lo, hi - 1) + if answer(hi - 1).Ok? then {answer(hi - 1).id} else {}
  }

  /**
   * The deletion loop's writes: one delete per owned event whose id is not
   * processed, in fetch order, and no delete of a processed id.
   */
  function PlannedDeletes(owned: seq<DiscordEvent>, processed: set<string>): seq<Op>
    decreases |owned|
  {
    if owned == [] then []
    else
      var e := owned[|owned| - 1];
      PlannedDeletes(owned[..|owned| - 1], processed) + if e.id in processed then [] else [Delete(e.id)]
  }

  /**
   * The deletion loop deletes an owned event exactly when its id is not
   * processed: every planned delete names an owned, unprocessed id, and every
   * owned, unprocessed id has a planned delete.
   */
  lemma {:induction false} PlannedDeletesExactly(owned: seq<DiscordEvent>, processed: set<string>)
    ensures forall op :: op in PlannedDeletes(owned, processed) ==> op.Delete? && op.id in IdsOf(owned) && op.id !in processed
    ensures forall e :: e in owned && e.id !in processed ==> Delete(e.id) in PlannedDeletes(owned, processed)
    decreases |owned|
  {
    if owned != [] {
      var init, e := owned[..|owned| - 1], owned[|owned| - 1];
      PlannedDeletesExactly(init, processed);
      assert owned == init + [e];
    }
  }

  /** Writes each followed by one pacing delay. */
  function Paced(ws: seq<Op>): (r: seq<Op>)
    ensures |r| == 2 * |ws|
    decreases |ws|
  {
    if ws == [] then [] else Paced(ws[..|ws| - 1]) + [ws[|ws| - 1], Wait]
  }

  /** In a paced sequence the writes sit at the even positions and the delays at the odd ones. */
  lemma {:induction false} PacedIndex(ws: seq<Op>)
    ensures forall i :: 0 <= i < |ws| ==> Paced(ws)[2 * i] == ws[i] && Paced(ws)[2 * i + 1] == Wait
    decreases |ws|
  {
    if ws != [] {
      var init := ws[..|ws| - 1];
      PacedIndex(init);
      assert Paced(ws) == Paced(init) + [ws[|ws| - 1], Wait];
    }
  }

  /** Every reply to the writes numbered `lo` up to `hi` is a success. */
  predicate Succeeded(answer: nat -> Reply, lo: nat, hi: nat) {
    forall n :: lo <= n < hi ==> answer(n).Ok?
  }

  /**
   * `trace` is what issuing the writes of `plan` in order yields when the
   * first of them is write number `w`: each write followed by a delay, up to
   * and including the first write Discord answers with an error, and nothing
   * after it. `writes` is the write count afterwards; `failed` says whether a
   * write failed.
   */
  predicate IssuedAs(trace: seq<Op>, plan: seq<Op>, answer: nat -> Reply, w: nat, writes: nat, failed: bool) {
    if failed then
      w < writes <= w + |plan|
      && var k := writes - w - 1;
         Succeeded(answer, w, w + k) && answer(w + k).Err? && trace == Paced(plan[..k]) + [plan[k]]
    else
      Succeeded(answer, w, w + |plan|) && writes == w + |plan| && trace == Paced(plan)
  }

  lemma {:induction false} PacedAppend(a: seq<Op>, b: seq<Op>)
    ensures Paced(a + b) == Paced(a) + Paced(b)
    decreases |b|
  {
    if b != [] {
      var init, x := b[..|b| - 1], b[|b| - 1];
      assert (a + b)[..|a + b| - 1] == a + init && (a + b)[|a + b| - 1] == x;
      PacedAppend(a, init);
      calc {
        Paced(a + b);
        Paced(a + init) + [x, Wait];
        Paced(a) + Paced(init) + [x, Wait];
        Paced(a) + Paced(b);
      }
    } else {
      assert a + b == a;
    }
  }

  /** Issuing one more write extends the trace by the write and, if it succeeded, a delay. */
  lemma IssueOne(trace: seq<Op>, plan: seq<Op>, op: Op, answer: nat -> Reply, w: nat, writes: nat)
    requires IssuedAs(trace, plan, answer, w, writes, false)
    ensures IssuedAs(trace + [op] + (if answer(writes).Ok? then [Wait] else []),
                     plan + [op], answer, w, writes + 1, answer(writes).Err?)
  {
    var q := plan + [op];
    assert q[..|plan|] == plan && q[|plan|] == op;
    if answer(writes).Ok? {
      assert q[..|q| - 1] == plan;
    }
  }

  /** A failed issue of `plan` is also a failed issue of any longer plan. */
  lemma IssueStopped(trace: seq<Op>, plan: seq<Op>, more: seq<Op>, answer: nat -> Reply, w: nat, writes: nat)
    requires IssuedAs(trace, plan, answer, w, writes, true)
    ensures IssuedAs(trace, plan + more, answer, w, writes, true)
  {
    var k := writes - w - 1;
    assert (plan + more)[..k] == plan[..k] && (plan + more)[k] == plan[k];
  }

  /** Issuing `a` completely and then `b` is issuing `a + b`. */
  lemma IssueConcat(
    t1: seq<Op>, t2: seq<Op>, a: seq<Op>, b: seq<Op>, answer: nat -> Reply, w: nat, mid: nat, writes: nat, failed: bool)
    requires IssuedAs(t1, a, answer, w, mid, false)
    requires IssuedAs(t2, b, answer, mid, writes, failed)
    ensures IssuedAs(t1 + t2, a + b, answer, w, writes, failed)
  {
    if failed {
      var k := writes - mid - 1;
      assert (a + b)[..|a| + k] == a + b[..k] && (a + b)[|a| + k] == b[k];
      PacedAppend(a, b[..k]);
    } else {
      PacedAppend(a, b);
    }
  }

  /** A create or patch extends the issue of the plan by one write and, on success, marks the returned id. */
  lemma WriteIssues(st0: PassState, p0: seq<Op>, kept0: set<string>, op: Op, answer: nat -> Reply, w: nat)
    requires !st0.failed && IssuedAs(st0.trace, p0, answer, w, st0.writes, false)
    requires st0.processed == kept0 + ReturnedIds(answer, w, st0.writes)
    ensures var st := Write(st0, op, answer);
            IssuedAs(st.trace, p0 + [op], answer, w, st.writes, st.failed)
            && (!st.failed ==> st.processed == kept0 + ReturnedIds(answer, w, st.writes))
  {
    var st := Write(st0, op, answer);
    var reply := answer(st0.writes);
    IssueOne(st0.trace, p0, op, answer, w, st0.writes);
    assert st.trace == st0.trace + [op] + (if reply.Ok? then [Wait] else []);
    if reply.Ok? {
      assert ReturnedIds(answer, w, st.writes) == ReturnedIds(answer, w, st0.writes) + {reply.id};
    }
  }

  /** One iteration of the calendar loop issues the write its calendar event calls for. */
  lemma ApplyOneIssues(
    st0: PassState, p0: seq<Op>, kept0: set<string>, item: Converted, owned: seq<DiscordEvent>,
    answer: nat -> Reply, w: nat)
    requires IssuedAs(st0.trace, p0, answer, w, st0.writes, st0.failed)
    requires !st0.failed ==> st0.processed == kept0 + ReturnedIds(answer, w, st0.writes)
    ensures var st := ApplyOne(st0, item, owned, answer);
            IssuedAs(st.trace, p0 + PlanOne(item, owned), answer, w, st.writes, st.failed)
            && (!st.failed ==> st.processed == kept0 + KeptOne(item, owned) + ReturnedIds(answer, w, st.writes))
  {
    if st0.failed {
      IssueStopped(st0.trace, p0, PlanOne(item, owned), answer, w, st0.writes);
    } else if item.payload.Some? {
      match Decide(item.payload.value, item.calEvent.htmlLink, owned)
      case Keep(id) => KeepIssues(st0, p0, kept0, item, owned, answer, w);
      case Update(id, data) => WriteCaseIssues(st0, p0, kept0, item, owned, answer, w);
      case Insert(data) => WriteCaseIssues(st0, p0, kept0, item, owned, answer, w);
    } else {
      assert p0 + PlanOne(item, owned) == p0 && kept0 + KeptOne(item, owned) == kept0;
    }
  }

  /** A calendar event whose match is already equal issues nothing and marks the match kept. */
  lemma KeepIssues(
    st0: PassState, p0: seq<Op>, kept0: set<string>, item: Converted, owned: seq<DiscordEvent>,
    answer: nat -> Reply, w: nat)
    requires !st0.failed && IssuedAs(st0.trace, p0, answer, w, st0.writes, false)
    requires st0.processed == kept0 + ReturnedIds(answer, w, st0.writes)
    requires item.payload.Some? && Decide(item.payload.value, item.calEvent.htmlLink, owned).Keep?
    ensures var st := ApplyOne(st0, item, owned, answer);
            IssuedAs(st.trace, p0 + PlanOne(item, owned), answer, w, st.writes, st.failed)
            && st.processed == kept0 + KeptOne(item, owned) + ReturnedIds(answer, w, st.writes)
  {
    var id := Decide(item.payload.value, item.calEvent.htmlLink, owned).id;
    assert PlanOne(item, owned) == [] && p0 + [] == p0;
    assert KeptOne(item, owned) == {id};
    assert ApplyOne(st0, item, owned, answer) == st0.(processed := st0.processed + {id});
    var returned := ReturnedIds(answer, w, st0.writes);
    assert kept0 + returned + {id} == kept0 + {id} + returned;
  }

  /** A calendar event that calls for a create or a patch issues that one write. */
  lemma WriteCaseIssues(
    st0: PassState, p0: seq<Op>, kept0: set<string>, item: Converted, owned: seq<DiscordEvent>,
    answer: nat -> Reply, w: nat)
    requires !st0.failed && IssuedAs(st0.trace, p0, answer, w, st0.writes, false)
    requires st0.processed == kept0 + ReturnedIds(answer, w, st0.writes)
    requires item.payload.Some? && !Decide(item.payload.value, item.calEvent.htmlLink, owned).Keep?
    ensures var st := ApplyOne(st0, item, owned, answer);
            IssuedAs(st.trace, p0 + PlanOne(item, owned), answer, w, st.writes, st.failed)
            && (!st.failed ==> st.processed == kept0 + KeptOne(item, owned) + ReturnedIds(answer, w, st.writes))
  {
    var op := match Decide(item.payload.value, item.calEvent.htmlLink, owned)
      case Update(id, data) => Patch(id, data)
      case Insert(data) => Create(data);
    assert PlanOne(item, owned) == [op] && KeptOne(item, owned) == {};
    assert ApplyOne(st0, item, owned, answer) == Write(st0, op, answer);
    WriteIssues(st0, p0, kept0, op, answer, w);
    assert kept0 + {} == kept0;
  }

  /**
   * The calendar loop issues exactly the planned creates and patches, and
   * when no write failed it has marked processed the kept ids and the ids
   * Discord returned.
   */
  lemma {:induction false} ApplyAllIssues(items: seq<Converted>, owned: seq<DiscordEvent>, answer: nat -> Reply, w: nat)
    ensures var st := ApplyAll(items, owned, answer, Start(w));
            IssuedAs(st.trace, Planned(items, owned), answer, w, st.writes, st.failed)
            && (!st.failed ==> st.processed == KeptIds(items, owned) + ReturnedIds(answer, w, st.writes))
    decreases |items|
  {
    if items != [] {
      var init, item := items[..|items| - 1], items[|items| - 1];
      ApplyAllIssues(init, owned, answer, w);
      ApplyOneIssues(ApplyAll(init, owned, answer, Start(w)), Planned(init, owned), KeptIds(init, owned),
                     item, owned, answer, w);
    }
  }

  /**
   * From a state in which no write failed, the deletion loop appends exactly
   * the issue of the planned deletes, and changes nothing else.
   */
  lemma {:induction false} DeleteAllIssues(owned: seq<DiscordEvent>, answer: nat -> Reply, st: PassState)
    requires !st.failed
    ensures var d := DeleteAll(owned, answer, st);
            d.processed == st.processed && |st.trace| <= |d.trace| && d.trace[..|st.trace|] == st.trace
            && IssuedAs(d.trace[|st.trace|..], PlannedDeletes(owned, st.processed), answer, st.writes, d.writes, d.failed)
    decreases |owned|
  {
    if owned == [] {
      assert st.trace[|st.trace|..] == [];
    } else {
      var init, e := owned[..|owned| - 1], owned[|owned| - 1];
      DeleteAllIssues(init, answer, st);
      var d0 := DeleteAll(init, answer, st);
      var q0 := PlannedDeletes(init, st.processed);
      assert DeleteAll(owned, answer, st) == DeleteOne(d0, e, answer);
      assert PlannedDeletes(owned, st.processed) == q0 + if e.id in st.processed then [] else [Delete(e.id)];
      DeleteOneIssues(st, d0, q0, e, answer);
    }
  }

  /** One iteration of the deletion loop extends the issue of the planned deletes by that of the event's delete. */
  lemma DeleteOneIssues(st: PassState, d0: PassState, q0: seq<Op>, e: DiscordEvent, answer: nat -> Reply)
    requires d0.processed == st.processed && |st.trace| <= |d0.trace| && d0.trace[..|st.trace|] == st.trace
    requires IssuedAs(d0.trace[|st.trace|..], q0, answer, st.writes, d0.writes, d0.failed)
    ensures var d := DeleteOne(d0, e, answer);
            d.processed == st.processed && |st.trace| <= |d.trace| && d.trace[..|st.trace|] == st.trace
            && IssuedAs(d.trace[|st.trace|..], q0 + (if e.id in st.processed then [] else [Delete(e.id)]),
                        answer, st.writes, d.writes, d.failed)
  {
    var t0 := d0.trace[|st.trace|..];
    if d0.failed {
      IssueStopped(t0, q0, if e.id in st.processed then [] else [Delete(e.id)], answer, st.writes, d0.writes);
    } else if e.id in st.processed {
      assert q0 + [] == q0;
    } else {
      var d := DeleteOne(d0, e, answer);
      var more := [Delete(e.id)] + (if answer(d0.writes).Ok? then [Wait] else []);
      IssueOne(t0, q0, Delete(e.id), answer, st.writes, d0.writes);
      assert d.trace == d0.trace + more;
      assert d.trace[..|st.trace|] == d0.trace[..|st.trace|];
      assert d.trace[|st.trace|..] == t0 + more;
      assert t0 + more == t0 + [Delete(e.id)] + (if answer(d0.writes).Ok? then [Wait] else []);
    }
  }

  /** The deletion loop after the calendar loop issued `p`: the pass issues `p`, then the planned deletes. */
  lemma DeletePhaseIssues(applied: PassState, p: seq<Op>, owned: seq<DiscordEvent>, answer: nat -> Reply, w: nat)
    requires IssuedAs(applied.trace, p, answer, w, applied.writes, applied.failed)
    ensures var run := DeleteAll(owned, answer, applied);
            IssuedAs(run.trace, p + PlannedDeletes(owned, applied.processed), answer, w, run.writes, run.failed)
  {
    if applied.failed {
      DeleteAllAfterFailure(owned, answer, applied);
      IssueStopped(applied.trace, p, PlannedDeletes(owned, applied.processed), answer, w, applied.writes);
    } else {
      DeletesAfterWrites(applied, p, owned, answer, w);
    }
  }

  /** When no write of the calendar loop failed, the deletion loop's issue follows the calendar loop's. */
  lemma DeletesAfterWrites(applied: PassState, p: seq<Op>, owned: seq<DiscordEvent>, answer: nat -> Reply, w: nat)
    requires !applied.failed && IssuedAs(applied.trace, p, answer, w, applied.writes, false)
    ensures var run := DeleteAll(owned, answer, applied);
            IssuedAs(run.trace, p + PlannedDeletes(owned, applied.processed), answer, w, run.writes, run.failed)
  {
    DeleteAllIssues(owned, answer, applied);
    var run := DeleteAll(owned, answer, applied);
    var deletes := run.trace[|applied.trace|..];
    IssueConcat(applied.trace, deletes, p, PlannedDeletes(owned, applied.processed),
                answer, w, applied.writes, run.writes, run.failed);
    assert applied.trace + deletes == run.trace by {
      assert run.trace == run.trace[..|applied.trace|] + deletes;
    }
  }

  /** The plan of a pass: the calendar loop's writes, then the deletes its processed ids leave. */
  function Plan(items: seq<Converted>, owned: seq<DiscordEvent>, processed: set<string>): seq<Op> {
    Planned(items, owned) + PlannedDeletes(owned, processed)
  }

  /**
   * The two loops issue exactly the plan, paced and cut at the first failing
   * write; the processed ids are the kept ones and those Discord returned.
   */
  lemma RunIssuesPlan(items: seq<Converted>, owned: seq<DiscordEvent>, answer: nat -> Reply, w: nat)
    ensures var applied := ApplyAll(items, owned, answer, Start(w));
            var run := Run(items, owned, answer, w);
            IssuedAs(run.trace, Plan(items, owned, applied.processed), answer, w, run.writes, run.failed)
            && (!applied.failed ==> applied.processed == KeptIds(items, owned) + ReturnedIds(answer, w, applied.writes))
  {
    ApplyAllIssues(items, owned, answer, w);
    DeletePhaseIssues(ApplyAll(items, owned, answer, Start(w)), Planned(items, owned), owned, answer, w);
  }

  /** A plan holds writes only, never a delay. */
  predicate WritesOnly(plan: seq<Op>) {
    forall op :: op in plan ==> op.IsWrite()
  }

  lemma PlanWritesOnly(items: seq<Converted>, owned: seq<DiscordEvent>, processed: set<string>)
    ensures WritesOnly(Plan(items, owned, processed))
  {
    PlannedWrites(items, owned);
    PlannedDeletesExactly(owned, processed);
  }

  /** The positions of the first `k` planned writes, paced, possibly followed by the next write alone. */
  lemma PacedPrefixIndex(trace: seq<Op>, plan: seq<Op>, k: nat, extra: bool)
    requires WritesOnly(plan) && k <= |plan| && (extra ==> k < |plan|)
    requires trace == Paced(plan[..k]) + if extra then [plan[k]] else []
    ensures |trace| == 2 * k + if extra then 1 else 0
    ensures forall i :: 0 <= i < |trace| ==> (trace[i] == Wait <==> i % 2 == 1)
    ensures forall i :: 0 <= i < |trace| && i % 2 == 0 ==> trace[i] == plan[i / 2]
  {
    var paced := plan[..k];
    PacedIndex(paced);
    forall i | 0 <= i < |trace|
      ensures (trace[i] == Wait <==> i % 2 == 1) && (i % 2 == 0 ==> trace[i] == plan[i / 2])
    {
      var h := i / 2;
      assert plan[h] in plan;
      if i < 2 * k {
        assert i == 2 * h || i == 2 * h + 1;
        assert trace[i] == Paced(paced)[i] && paced[h] == plan[h];
      }
    }
  }

  /**
   * Reading an issued trace: delays sit exactly at the odd positions, the
   * write at position 2h is the plan's h-th, the trace has odd length exactly
   * when a write failed, and every write in it was counted.
   */
  lemma IssuedIndex(trace: seq<Op>, plan: seq<Op>, answer: nat -> Reply, w: nat, writes: nat, failed: bool)
    requires WritesOnly(plan) && IssuedAs(trace, plan, answer, w, writes, failed)
    ensures |trace| <= 2 * |plan|
    ensures forall i :: 0 <= i < |trace| ==> (trace[i] == Wait <==> i % 2 == 1)
    ensures forall i :: 0 <= i < |trace| && i % 2 == 0 ==> trace[i] == plan[i / 2]
    ensures failed <==> |trace| % 2 == 1
    ensures writes == w + (|trace| + 1) / 2
  {
    if failed {
      var k := writes - w - 1;
      PacedPrefixIndex(trace, plan, k, true);
      assert |trace| == 2 * k + 1 && (|trace| + 1) / 2 == k + 1 && |trace| % 2 == 1;
    } else {
      assert plan[..|plan|] == plan;
      PacedPrefixIndex(trace, plan, |plan|, false);
      assert |trace| == 2 * |plan| && (|trace| + 1) / 2 == |plan| && |trace| % 2 == 0;
    }
  }

  /** Every operation of an issued trace is a delay or a write of the plan. */
  lemma IssuedOps(trace: seq<Op>, plan: seq<Op>, answer: nat -> Reply, w: nat, writes: nat, failed: bool)
    requires WritesOnly(plan) && IssuedAs(trace, plan, answer, w, writes, failed)
    ensures forall op :: op in trace ==> op == Wait || op in plan
  {
    IssuedIndex(trace, plan, answer, w, writes, failed);
    forall op | op in trace
      ensures op == Wait || op in plan
    {
      var i :| 0 <= i < |trace| && trace[i] == op;
      if i % 2 == 0 {
        assert plan[i / 2] in plan;
      }
    }
  }

  /**
   * A whole pass: an empty or missing calendar issues nothing; otherwise the
   * pass issues the plan of its calendar and owned events, paced and cut at
   * the first failing write.
   */
  lemma PassIssuesPlan(
    applicationId: string, placeholder: string, parseDate: string -> Instant,
    channels: seq<Channel>, calendar: Option<seq<CalendarEvent>>, events: seq<DiscordEvent>,
    answer: nat -> Reply, w: nat)
    ensures var pass := Pass(applicationId, placeholder, parseDate, channels, calendar, events, answer, w);
            if calendar.None? || calendar.value == [] then pass.trace == [] && pass.writes == w && !pass.failed
            else
              var items := Convert(EligibleChannels(channels), calendar.value, placeholder, parseDate);
              var owned := OwnedEvents(events, applicationId);
              var applied := ApplyAll(items, owned, answer, Start(w));
              WritesOnly(Plan(items, owned, applied.processed))
              && IssuedAs(pass.trace, Plan(items, owned, applied.processed), answer, w, pass.writes, pass.failed)
  {
    if calendar.Some? && calendar.value != [] {
      var items := Convert(EligibleChannels(channels), calendar.value, placeholder, parseDate);
      var owned := OwnedEvents(events, applicationId);
      RunIssuesPlan(items, owned, answer, w);
      PlanWritesOnly(items, owned, ApplyAll(items, owned, answer, Start(w)).processed);
    }
  }

  /**
   * Only the bot's own events are ever patched or deleted, and every create
   * or patch carries the payload mapped from one of the calendar events.
   */
  lemma PassOwnership(
    applicationId: string, placeholder: string, parseDate: string -> Instant,
    channels: seq<Channel>, calendar: Option<seq<CalendarEvent>>, events: seq<DiscordEvent>,
    answer: nat -> Reply, w: nat)
    ensures var pass := Pass(applicationId, placeholder, parseDate, channels, calendar, events, answer, w);
            forall op :: op in pass.trace && (op.Patch? || op.Delete?)
                         ==> exists e :: e in events && e.creatorId == applicationId && e.id == op.id
    ensures var pass := Pass(applicationId, placeholder, parseDate, channels, calendar, events, answer, w);
            forall op :: op in pass.trace && (op.Create? || op.Patch?)
                         ==> calendar.Some?
                             && exists c :: (c in calendar.value
                                             && CalendarToDiscordEvent(EligibleChannels(channels), c, placeholder, parseDate)
                                                == Some(op.data))
  {
    var pass := Pass(applicationId, placeholder, parseDate, channels, calendar, events, answer, w);
    PassIssuesPlan(applicationId, placeholder, parseDate, channels, calendar, events, answer, w);
    if calendar.Some? && calendar.value != [] {
      var items := Convert(EligibleChannels(channels), calendar.value, placeholder, parseDate);
      var owned := OwnedEvents(events, applicationId);
      var processed := ApplyAll(items, owned, answer, Start(w)).processed;
      IssuedOps(pass.trace, Plan(items, owned, processed), answer, w, pass.writes, pass.failed);
      PlannedWrites(items, owned);
      PlannedDeletesExactly(owned, processed);
      forall op | op in pass.trace && (op.Patch? || op.Delete?)
        ensures exists e :: e in events && e.creatorId == applicationId && e.id == op.id
      {
        assert op.id in IdsOf(owned);
        var e :| e in owned && e.id == op.id;
      }
      forall op | op in pass.trace && (op.Create? || op.Patch?)
        ensures exists c :: (c in calendar.value
                             && CalendarToDiscordEvent(EligibleChannels(channels), c, placeholder, parseDate) == Some(op.data))
      {
        var i :| 0 <= i < |items| && items[i].payload == Some(op.data);
        assert calendar.value[i] in calendar.value;
      }
    }
  }

  /**
   * Pacing and stopping of a finished pass: delays and writes alternate,
   * starting with a write; the write count matches the trace; when every
   * write succeeded each one is followed by its delay; when one failed, it is
   * the last operation of the pass and every earlier write succeeded.
   */
  predicate PacedRun(st: PassState, answer: nat -> Reply, w: nat) {
    (forall i :: 0 <= i < |st.trace| ==> (st.trace[i].Wait? <==> i % 2 == 1))
    && st.writes == w + (|st.trace| + 1) / 2
    && (st.failed <==> |st.trace| % 2 == 1)
    && (st.failed ==> st.writes >= 1 && Succeeded(answer, w, st.writes - 1) && answer(st.writes - 1).Err?)
    && (!st.failed ==> Succeeded(answer, w, st.writes))
  }

  /** Every pass is paced and stops at its first failing write. */
  lemma PassPacing(
    applicationId: string, placeholder: string, parseDate: string -> Instant,
    channels: seq<Channel>, calendar: Option<seq<CalendarEvent>>, events: seq<DiscordEvent>,
    answer: nat -> Reply, w: nat)
    ensures PacedRun(Pass(applicationId, placeholder, parseDate, channels, calendar, events, answer, w), answer, w)
  {
    if calendar.Some? && calendar.value != [] {
      var items := Convert(EligibleChannels(channels), calendar.value, placeholder, parseDate);
      var owned := OwnedEvents(events, applicationId);
      assert Pass(applicationId, placeholder, parseDate, channels, calendar, events, answer, w)
             == Run(items, owned, answer, w);
      RunPacing(items, owned, answer, w);
    } else {
      assert Succeeded(answer, w, w);
    }
  }

  /** The two loops of the `try` block are paced and stop at their first failing write. */
  lemma RunPacing(items: seq<Converted>, owned: seq<DiscordEvent>, answer: nat -> Reply, w: nat)
    ensures PacedRun(Run(items, owned, answer, w), answer, w)
  {
    var run := Run(items, owned, answer, w);
    var plan := Plan(items, owned, ApplyAll(items, owned, answer, Start(w)).processed);
    RunIssuesPlan(items, owned, answer, w);
    PlanWritesOnly(items, owned, ApplyAll(items, owned, answer, Start(w)).processed);
    IssuedIndex(run.trace, plan, answer, w, run.writes, run.failed);
  }

  /** Every mapped calendar event has a first match that already equals it. */
  predicate AllMatchedEqual(items: seq<Converted>, owned: seq<DiscordEvent>) {
    forall i :: 0 <= i < |items| ==> MatchedEqual(items[i], owned)
  }

  /** A skipped calendar event, or one whose first matching owned event is equal to its payload. */
  predicate MatchedEqual(item: Converted, owned: seq<DiscordEvent>) {
    item.payload.Some? ==>
      var k := FindExisting(owned, item.calEvent.htmlLink);
      k.Some? && CompareEvents(item.payload.value, owned[k.value].data)
  }

  /**
   * Discord already mirrors the calendar: every mapped calendar event has an
   * equal match, and every owned event is one of those matches.
   */
  predicate InSync(items: seq<Converted>, owned: seq<DiscordEvent>) {
    AllMatchedEqual(items, owned) && forall e :: e in owned ==> e.id in KeptIds(items, owned)
  }

  /** The calendar loop plans no write exactly when every mapped calendar event has an equal match. */
  lemma {:induction false} PlannedEmpty(items: seq<Converted>, owned: seq<DiscordEvent>)
    ensures Planned(items, owned) == [] <==> AllMatchedEqual(items, owned)
    decreases |items|
  {
    if items != [] {
      var init := items[..|items| - 1];
      var item := items[|items| - 1];
      PlannedEmpty(init, owned);
      assert Planned(items, owned) == Planned(init, owned) + PlanOne(item, owned);
      assert PlanOne(item, owned) == [] <==> MatchedEqual(item, owned);
      assert AllMatchedEqual(items, owned) <==> AllMatchedEqual(init, owned) && MatchedEqual(item, owned) by {
        assert forall i :: 0 <= i < |init| ==> init[i] == items[i];
      }
    }
  }

  /** The deletion loop plans no delete exactly when every owned id is processed. */
  lemma NoDeletesPlanned(owned: seq<DiscordEvent>, processed: set<string>)
    ensures PlannedDeletes(owned, processed) == [] <==> forall e :: e in owned ==> e.id in processed
  {
    PlannedDeletesExactly(owned, processed);
    var r := PlannedDeletes(owned, processed);
    if r != [] {
      assert r[0] in r;
      var e :| e in owned && e.id == r[0].id;
    }
  }

  /**
   * A pass over a non-empty calendar issues nothing at all, neither a write
   * nor a delay, exactly when Discord is already in sync with the calendar.
   */
  lemma QuietIffInSync(items: seq<Converted>, owned: seq<DiscordEvent>, answer: nat -> Reply, w: nat)
    ensures Run(items, owned, answer, w).trace == [] <==> InSync(items, owned)
  {
    var applied := ApplyAll(items, owned, answer, Start(w));
    var run := Run(items, owned, answer, w);
    var plan := Plan(items, owned, applied.processed);
    ApplyAllIssues(items, owned, answer, w);
    RunIssuesPlan(items, owned, answer, w);
    PlanWritesOnly(items, owned, applied.processed);
    IssuedIndex(run.trace, plan, answer, w, run.writes, run.failed);
    PlannedEmpty(items, owned);
    NoDeletesPlanned(owned, applied.processed);
    if Planned(items, owned) == [] {
      assert !applied.failed && applied.writes == w;
      assert ReturnedIds(answer, w, w) == {};
      assert applied.processed == KeptIds(items, owned);
    }
  }

  /** The payloads mapped from the calendar. */
  function Payloads(items: seq<Converted>): set<EventData> {
    set i | 0 <= i < |items| && items[i].payload.Some? :: items[i].payload.value
  }

  /** The data the owned events carry. */
  function DataOf(owned: seq<DiscordEvent>): set<EventData> {
    set k | 0 <= k < |owned| :: owned[k].data
  }

  /**
   * The owned events mirror the mapped calendar: they carry exactly the
   * mapped payloads, and no two of them carry the same data. This is what a
   * pass over the same calendar leaves behind when none of its writes failed.
   */
  predicate Mirrors(items: seq<Converted>, owned: seq<DiscordEvent>) {
    Payloads(items) == DataOf(owned)
    && forall j, k :: 0 <= j < k < |owned| ==> owned[j].data != owned[k].data
  }

  /**
   * Every mapped calendar event has a permalink, and a mapped description
   * ends with it exactly when it is that event's own payload. Two calendar
   * events sharing a permalink break this: both then match the same Discord
   * event, and every pass patches it from one payload to the other.
   */
  predicate LinksSeparate(items: seq<Converted>) {
    forall i, j :: 0 <= i < |items| && 0 <= j < |items| ==> LinkSeparates(items[i], items[j])
  }

  /** The permalink of mapped event `a` ends the description of mapped event `b` exactly when they share a payload. */
  predicate LinkSeparates(a: Converted, b: Converted) {
    a.payload.Some? && b.payload.Some?
    ==> a.calEvent.htmlLink.Some?
        && (EndsWith(b.payload.value.description, a.calEvent.htmlLink.value) <==> b.payload == a.payload)
  }

  /** On a mirrored calendar, the lookup for a mapped event finds the one owned event carrying its payload. */
  lemma MirroredMatch(items: seq<Converted>, owned: seq<DiscordEvent>, i: nat) returns (k: nat)
    requires Mirrors(items, owned) && LinksSeparate(items)
    requires i < |items| && items[i].payload.Some?
    ensures k < |owned| && owned[k].data == items[i].payload.value
    ensures FindExisting(owned, items[i].calEvent.htmlLink) == Some(k)
  {
    var link := items[i].calEvent.htmlLink;
    k := CarrierOf(items, owned, items[i].payload.value);
    assert LinkSeparates(items[i], items[i]);
    FoundAtOrBefore(owned, link.value, k);
    var m := FindExisting(owned, link).value;
    var j := SourceOf(items, owned, owned[m].data);
    assert LinkSeparates(items[i], items[j]);
    assert owned[m].data == owned[k].data;
  }

  /** A mapped payload is carried by an owned event of a mirrored calendar. */
  lemma CarrierOf(items: seq<Converted>, owned: seq<DiscordEvent>, p: EventData) returns (k: nat)
    requires Payloads(items) == DataOf(owned) && p in Payloads(items)
    ensures k < |owned| && owned[k].data == p
  {
    assert p in DataOf(owned);
    k :| 0 <= k < |owned| && owned[k].data == p;
  }

  /** The data an owned event of a mirrored calendar carries is mapped from some calendar event. */
  lemma SourceOf(items: seq<Converted>, owned: seq<DiscordEvent>, d: EventData) returns (j: nat)
    requires Payloads(items) == DataOf(owned) && d in DataOf(owned)
    ensures j < |items| && items[j].payload == Some(d)
  {
    assert d in Payloads(items);
    j :| 0 <= j < |items| && items[j].payload.Some? && items[j].payload.value == d;
  }

  /** An owned event whose description ends with the permalink is found at its position or an earlier one. */
  lemma FoundAtOrBefore(owned: seq<DiscordEvent>, link: string, k: nat)
    requires k < |owned| && EndsWith(owned[k].data.description, link)
    ensures FindExisting(owned, Some(link)).Some? && FindExisting(owned, Some(link)).value <= k
  {
  }

  /** The mapped event whose payload an owned event carries keeps that event. */
  lemma KeptWhenMirrored(items: seq<Converted>, owned: seq<DiscordEvent>, i: nat) returns (k: nat)
    requires Mirrors(items, owned) && LinksSeparate(items)
    requires i < |items| && items[i].payload.Some?
    ensures k < |owned| && owned[k].data == items[i].payload.value
    ensures MatchedEqual(items[i], owned) && KeptOne(items[i], owned) == {owned[k].id}
  {
    k := MirroredMatch(items, owned, i);
    CompareIsEquivalence(owned[k].data, owned[k].data, owned[k].data);
  }

  /** Each calendar event's kept id is among the kept ids of the whole calendar. */
  lemma {:induction false} KeptOneIn(items: seq<Converted>, owned: seq<DiscordEvent>, i: nat)
    requires i < |items|
    ensures KeptOne(items[i], owned) <= KeptIds(items, owned)
    decreases |items|
  {
    if i < |items| - 1 {
      var init := items[..|items| - 1];
      assert init[i] == items[i];
      KeptOneIn(init, owned, i);
    }
  }

  /**
   * Idempotence: a pass over a calendar whose events Discord already
   * mirrors, with each permalink belonging to one calendar event, issues
   * nothing.
   */
  lemma SecondPassQuiet(items: seq<Converted>, owned: seq<DiscordEvent>, answer: nat -> Reply, w: nat)
    requires Mirrors(items, owned) && LinksSeparate(items)
    ensures Run(items, owned, answer, w).trace == []
  {
    forall i | 0 <= i < |items|
      ensures MatchedEqual(items[i], owned)
    {
      if items[i].payload.Some? {
        var _ := KeptWhenMirrored(items, owned, i);
      }
    }
    forall e | e in owned
      ensures e.id in KeptIds(items, owned)
    {
      var k :| 0 <= k < |owned| && owned[k] == e;
      assert e.data in DataOf(owned);
      var i := SourceOf(items, owned, e.data);
      var k' := KeptWhenMirrored(items, owned, i);
      assert owned[k].data == owned[k'].data;
      KeptOneIn(items, owned, i);
    }
    QuietIffInSync(items, owned, answer, w);
  }

  /** Filtering keeps ids distinct. */
  lemma {:induction false} OwnedDistinct(events: seq<DiscordEvent>, applicationId: string)
    requires DistinctIds(events)
    ensures DistinctIds(OwnedEvents(events, applicationId))
    decreases |events|
  {
    if events != [] {
      var rest := OwnedEvents(events[1..], applicationId);
      OwnedDistinct(events[1..], applicationId);
      if events[0].creatorId == applicationId {
        var r := OwnedEvents(events, applicationId);
        assert r == [events[0]] + rest;
        forall j | 0 < j < |r|
          ensures r[0].id != r[j].id
        {
          assert r[j] == rest[j - 1] && rest[j - 1] in events[1..];
        }
      }
    }
  }

  /** No operation occurs twice. */
  predicate NoRepeats(ops: seq<Op>) {
    forall a, b :: 0 <= a < b < |ops| ==> ops[a] != ops[b]
  }

  /** With distinct ids, no delete is planned twice. */
  lemma {:induction false} PlannedDeletesDistinct(owned: seq<DiscordEvent>, processed: set<string>)
    requires DistinctIds(owned)
    ensures NoRepeats(PlannedDeletes(owned, processed))
    decreases |owned|
  {
    if owned != [] {
      var init, e := owned[..|owned| - 1], owned[|owned| - 1];
      assert DistinctIds(init) by {
        assert forall i :: 0 <= i < |init| ==> init[i] == owned[i];
      }
      PlannedDeletesDistinct(init, processed);
      var r0, r := PlannedDeletes(init, processed), PlannedDeletes(owned, processed);
      if e.id !in processed {
        LastIdIsNew(owned);
        PlannedDeletesExactly(init, processed);
        assert Delete(e.id) !in r0;
        assert r == r0 + [Delete(e.id)];
        forall a, b | 0 <= a < b < |r|
          ensures r[a] != r[b]
        {
          assert r[a] == r0[a];
          if b < |r0| {
            assert r[b] == r0[b];
          } else {
            assert r0[a] in r0;
          }
        }
      } else {
        assert r == r0 + [] == r0;
      }
    }
  }

  /** With distinct ids, the last event's id is not among the ids of the events before it. */
  lemma LastIdIsNew(owned: seq<DiscordEvent>)
    requires owned != [] && DistinctIds(owned)
    ensures owned[|owned| - 1].id !in IdsOf(owned[..|owned| - 1])
  {
    var init, e := owned[..|owned| - 1], owned[|owned| - 1];
    assert forall j :: 0 <= j < |init| ==> init[j].id != e.id by {
      assert forall j :: 0 <= j < |init| ==> init[j] == owned[j];
    }
  }

  /**
   * Deletion is at most once: when Discord's event ids are distinct, no
   * event is deleted twice in a pass.
   */
  lemma DeletedAtMostOnce(
    applicationId: string, placeholder: string, parseDate: string -> Instant,
    channels: seq<Channel>, calendar: Option<seq<CalendarEvent>>, events: seq<DiscordEvent>,
    answer: nat -> Reply, w: nat)
    requires DistinctIds(events)
    ensures var trace := Pass(applicationId, placeholder, parseDate, channels, calendar, events, answer, w).trace;
            forall i, j :: 0 <= i < j < |trace| && trace[i].Delete? ==> trace[i] != trace[j]
  {
    var pass := Pass(applicationId, placeholder, parseDate, channels, calendar, events, answer, w);
    PassIssuesPlan(applicationId, placeholder, parseDate, channels, calendar, events, answer, w);
    if calendar.Some? && calendar.value != [] {
      var items := Convert(EligibleChannels(channels), calendar.value, placeholder, parseDate);
      var owned := OwnedEvents(events, applicationId);
      var processed := ApplyAll(items, owned, answer, Start(w)).processed;
      var planned, deletes := Planned(items, owned), PlannedDeletes(owned, processed);
      var plan := planned + deletes;
      IssuedIndex(pass.trace, plan, answer, w, pass.writes, pass.failed);
      PlannedWrites(items, owned);
      OwnedDistinct(events, applicationId);
      PlannedDeletesDistinct(owned, processed);
      forall k | 0 <= k < |planned|
        ensures !planned[k].Delete?
      {
        assert planned[k] in planned;
      }
      TraceDeletesDistinct(pass.trace, planned, deletes);
    }
  }

  /** A trace laid out as a paced plan repeats no delete when the plan's deletes are distinct. */
  lemma TraceDeletesDistinct(trace: seq<Op>, planned: seq<Op>, deletes: seq<Op>)
    requires |trace| <= 2 * (|planned| + |deletes|)
    requires forall i :: 0 <= i < |trace| ==> (trace[i] == Wait <==> i % 2 == 1)
    requires forall i :: 0 <= i < |trace| && i % 2 == 0 ==> trace[i] == (planned + deletes)[i / 2]
    requires forall k :: 0 <= k < |planned| ==> !planned[k].Delete?
    requires NoRepeats(deletes)
    ensures forall i, j :: 0 <= i < j < |trace| && trace[i].Delete? ==> trace[i] != trace[j]
  {
    var plan := planned + deletes;
    forall i, j | 0 <= i < j < |trace| && trace[i].Delete?
      ensures trace[i] != trace[j]
    {
      var a, b := i / 2, j / 2;
      assert i % 2 == 0 && trace[i] == plan[a];
      assert a >= |planned|;
      if j % 2 == 0 {
        assert trace[j] == plan[b] && a < b;
        assert deletes[a - |planned|] == plan[a] && deletes[b - |planned|] == plan[b];
      }
    }
  }

  /** `ops` deletes `x` at some position before one where it deletes `y`. */
  predicate DeletedBefore(ops: seq<Op>, x: string, y: string) {
    exists a, b :: 0 <= a < b < |ops| && ops[a] == Delete(x) && ops[b] == Delete(y)
  }

  /**
   * The deletion loop follows fetch order: of two unprocessed owned events,
   * the earlier one's delete is planned first.
   */
  lemma {:induction false} DeletesInFetchOrder(owned: seq<DiscordEvent>, processed: set<string>, i: nat, j: nat)
    requires i < j < |owned| && owned[i].id !in processed && owned[j].id !in processed
    ensures DeletedBefore(PlannedDeletes(owned, processed), owned[i].id, owned[j].id)
    decreases |owned|
  {
    var init := owned[..|owned| - 1];
    var last := owned[|owned| - 1];
    var r0, r := PlannedDeletes(init, processed), PlannedDeletes(owned, processed);
    assert r == r0 + if last.id in processed then [] else [Delete(last.id)];
    if j == |owned| - 1 {
      PlannedDeletesExactly(init, processed);
      assert owned[i] in init;
      var a :| 0 <= a < |r0| && r0[a] == Delete(owned[i].id);
      assert r[a] == r0[a] && r[|r| - 1] == Delete(owned[j].id);
    } else {
      DeletesInFetchOrder(init, processed, i, j);
      assert init[i] == owned[i] && init[j] == owned[j];
      var a, b :| 0 <= a < b < |r0| && r0[a] == Delete(init[i].id) && r0[b] == Delete(init[j].id);
      assert r[a] == r0[a] && r[b] == r0[b];
    }
  }

  /**
   * Processed events are never deleted: neither an owned event that a
   * calendar event matched and found equal, nor one whose id Discord
   * returned to the calendar loop's create or patch. When no write fails,
   * every other owned event is deleted.
   */
  lemma ProcessedNeverDeleted(items: seq<Converted>, owned: seq<DiscordEvent>, answer: nat -> Reply, w: nat)
    ensures var applied := ApplyAll(items, owned, answer, Start(w));
            var run := Run(items, owned, answer, w);
            var kept := KeptIds(items, owned) + ReturnedIds(answer, w, applied.writes);
            (forall id :: Delete(id) in run.trace ==> id !in kept)
            && (!run.failed ==> forall e :: e in owned && e.id !in kept ==> Delete(e.id) in run.trace)
  {
    KeptNeverDeleted(items, owned, answer, w);
    UnkeptDeleted(items, owned, answer, w);
  }

  /** No delete of the pass names an id the calendar loop kept or got back from Discord. */
  lemma KeptNeverDeleted(items: seq<Converted>, owned: seq<DiscordEvent>, answer: nat -> Reply, w: nat)
    ensures var applied := ApplyAll(items, owned, answer, Start(w));
            var kept := KeptIds(items, owned) + ReturnedIds(answer, w, applied.writes);
            forall id :: Delete(id) in Run(items, owned, answer, w).trace ==> id !in kept
  {
    var applied := ApplyAll(items, owned, answer, Start(w));
    var run := Run(items, owned, answer, w);
    var planned := Planned(items, owned);
    ApplyAllIssues(items, owned, answer, w);
    PlannedWrites(items, owned);
    if applied.failed {
      DeleteAllAfterFailure(owned, answer, applied);
      IssuedOps(applied.trace, planned, answer, w, applied.writes, applied.failed);
    } else {
      RunIssuesPlan(items, owned, answer, w);
      PlanWritesOnly(items, owned, applied.processed);
      IssuedOps(run.trace, planned + PlannedDeletes(owned, applied.processed), answer, w, run.writes, run.failed);
      PlannedDeletesExactly(owned, applied.processed);
    }
  }

  /** A pass in which no write failed deletes every owned event whose id was neither kept nor returned. */
  lemma UnkeptDeleted(items: seq<Converted>, owned: seq<DiscordEvent>, answer: nat -> Reply, w: nat)
    ensures var applied := ApplyAll(items, owned, answer, Start(w));
            var run := Run(items, owned, answer, w);
            var kept := KeptIds(items, owned) + ReturnedIds(answer, w, applied.writes);
            !run.failed ==> forall e :: e in owned && e.id !in kept ==> Delete(e.id) in run.trace
  {
    var applied := ApplyAll(items, owned, answer, Start(w));
    var run := Run(items, owned, answer, w);
    if applied.failed {
      DeleteAllAfterFailure(owned, answer, applied);
    } else if !run.failed {
      var planned, deletes := Planned(items, owned), PlannedDeletes(owned, applied.processed);
      var plan := planned + deletes;
      RunIssuesPlan(items, owned, answer, w);
      PlannedDeletesExactly(owned, applied.processed);
      assert run.trace == Paced(plan);
      PacedKeepsWrites(planned, deletes);
    }
  }

  /** Pacing a plan drops none of its writes. */
  lemma PacedKeepsWrites(before: seq<Op>, ws: seq<Op>)
    ensures forall op :: op in ws ==> op in Paced(before + ws)
  {
    var plan := before + ws;
    PacedIndex(plan);
    forall op | op in ws
      ensures op in Paced(plan)
    {
      var a :| 0 <= a < |ws| && ws[a] == op;
      assert plan[|before| + a] == op;
      assert Paced(plan)[2 * (|before| + a)] == op;
    }
  }

}
