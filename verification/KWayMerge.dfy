/** `do_merge` of crates/tv-engine/src/external_sort.rs: a heap of cursors over batched runs that
    collects `(run, row)` pairs and gathers them only when a batch is about to be replaced. */
module KWayMerge {
  import opened Seqs
  import opened Orders
  import opened Merge
  import SliceBatches

  /** A spilled run, as its reader hands it out: non-empty batches. */
  datatype SpilledRun<T> = SpilledRun(batches: seq<seq<T>>, rowCount: nat)

  datatype Cursor<T> = Cursor(batch: seq<T>, row: nat, todo: seq<seq<T>>)

  ghost predicate NoEmptyBatch<T>(batches: seq<seq<T>>) {
    forall i :: 0 <= i < |batches| ==> batches[i] != []
  }

  ghost predicate Readable<T>(runs: seq<SpilledRun<T>>) {
    forall r :: 0 <= r < |runs| ==> NoEmptyBatch(runs[r].batches)
  }

  function Rows<T>(run: SpilledRun<T>): seq<T> {
    Flatten(run.batches)
  }

  function AllRows<T>(runs: seq<SpilledRun<T>>): seq<seq<T>> {
    seq(|runs|, r requires 0 <= r < |runs| => Rows(runs[r]))
  }

  /** The batch under each cursor, empty where the run is exhausted. */
  function Snapshots<T>(cursors: seq<Option<Cursor<T>>>): seq<seq<T>> {
    seq(|cursors|, r requires 0 <= r < |cursors| => if cursors[r].Some? then cursors[r].value.batch else [])
  }

  /** Every pending pair points into a batch that is still there. */
  ghost predicate PendingIn<T>(pending: seq<(nat, nat)>, batches: seq<seq<T>>) {
    forall i :: 0 <= i < |pending| ==> pending[i].0 < |batches| && pending[i].1 < |batches[pending[i].0]|
  }

  /** Arrow's `interleave`. */
  function Interleave<T>(batches: seq<seq<T>>, pending: seq<(nat, nat)>): (rows: seq<T>)
    requires PendingIn(pending, batches)
  {
    seq(|pending|, i requires 0 <= i < |pending| => batches[pending[i].0][pending[i].1])
  }

  // ---- cursors and merge progress

  ghost predicate CursorAt<T>(c: Option<Cursor<T>>, onHeap: seq<T>, behind: seq<T>) {
    match c
    case None => onHeap == [] && behind == []
    case Some(c) =>
      && c.row < |c.batch| && onHeap == [c.batch[c.row]]
      && behind == c.batch[c.row + 1..] + Flatten(c.todo) && NoEmptyBatch(c.todo)
  }

  ghost predicate CursorsAt<T>(cursors: seq<Option<Cursor<T>>>, p: Progress<T>) {
    && InRange(p)
    && |cursors| == |p.rest|
    && forall r :: 0 <= r < |cursors| ==> CursorAt(cursors[r], FromRun(p.heap, r), p.rest[r])
  }

  lemma CursorsGiveOnePerRun<T>(cursors: seq<Option<Cursor<T>>>, p: Progress<T>)
    requires CursorsAt(cursors, p)
    ensures OneEntryPerRun(p)
  {
    forall r | 0 <= r < |p.rest|
      ensures |FromRun(p.heap, r)| <= 1 && (p.rest[r] != [] ==> FromRun(p.heap, r) != [])
    {
      assert CursorAt(cursors[r], FromRun(p.heap, r), p.rest[r]);
    }
  }

  /** The cursor behind a heap entry stands at the entry's row. */
  lemma PoppedCursor<T>(cursors: seq<Option<Cursor<T>>>, p: Progress<T>, i: nat)
    requires CursorsAt(cursors, p) && i < |p.heap|
    ensures var c := cursors[p.heap[i].run];
            c.Some? && c.value.row < |c.value.batch| && p.heap[i].key == c.value.batch[c.value.row]
  {
    var run := p.heap[i].run;
    CursorsGiveOnePerRun(cursors, p);
    FromRunRemoved(p.heap, i, run);
    assert CursorAt(cursors[run], FromRun(p.heap, run), p.rest[run]);
  }

  function Advanced<T>(c: Cursor<T>): Option<Cursor<T>> {
    if c.row + 1 < |c.batch| then Some(c.(row := c.row + 1))
    else if c.todo != [] then Some(Cursor(c.todo[0], 0, c.todo[1..]))
    else None
  }

  lemma AdvancedFits<T>(c: Cursor<T>)
    requires c.row < |c.batch| && NoEmptyBatch(c.todo)
    ensures var behind := c.batch[c.row + 1..] + Flatten(c.todo);
            if behind == [] then Advanced(c) == None
            else CursorAt(Advanced(c), [behind[0]], behind[1..])
  {
    if c.row + 1 < |c.batch| {
      assert c.batch[c.row + 1..][1..] == c.batch[c.row + 2..];
    } else if c.todo != [] {
      assert c.batch[c.row + 1..] == [];
      assert Flatten(c.todo) == c.todo[0] + Flatten(c.todo[1..]);
    }
  }

  lemma CursorsAdvance<T>(pick: Picker<T>, cursors: seq<Option<Cursor<T>>>, p: Progress<T>)
    requires CursorsAt(cursors, p) && Popped(pick, p) < |p.heap|
    requires cursors[p.heap[Popped(pick, p)].run].Some?
    ensures var run := p.heap[Popped(pick, p)].run;
            CursorsAt(cursors[run := Advanced(cursors[run].value)], Step(pick, p))
  {
    var i := Popped(pick, p);
    var run, heap, next := p.heap[i].run, RemoveAt(p.heap, i), Step(pick, p);
    var moved := cursors[run := Advanced(cursors[run].value)];
    CursorsGiveOnePerRun(cursors, p);
    forall r | 0 <= r < |moved|
      ensures CursorAt(moved[r], FromRun(next.heap, r), next.rest[r])
    {
      assert CursorAt(cursors[r], FromRun(p.heap, r), p.rest[r]);
      FromRunRemoved(p.heap, i, r);
      if p.rest[run] != [] {
        FromRunPush(heap, Entry(p.rest[run][0], run), r);
      }
      if r == run {
        AdvancedFits(cursors[run].value);
      }
    }
  }

  // ---- the window

  lemma WindowNext<T>(done: seq<T>, x: T, offset: nat, limit: nat)
    ensures Slice(done + [x], offset, limit) ==
            if |done| < offset || |Slice(done, offset, limit)| == limit then Slice(done, offset, limit)
            else Slice(done, offset, limit) + [x]
  {
  }

  lemma DeliveredNext<T(!new)>(leq: (T, T) -> bool, pick: Picker<T>, p: Progress<T>, done: seq<T>)
    requires PicksLeast(leq, pick) && InRange(p) && p.heap != []
    ensures done + Keys(Delivered(leq, pick, p)) ==
            done + [p.heap[Popped(pick, p)].key] + Keys(Delivered(leq, pick, Step(pick, p)))
  {
    StepShrinks(pick, p);
    KeysCons(p.heap[Popped(pick, p)], Delivered(leq, pick, Step(pick, p)));
  }

  // ---- opening the runs

  lemma OpenedRun<T>(runs: seq<SpilledRun<T>>, n: nat)
    requires n < |runs| && Readable(runs)
    ensures Rows(runs[n]) == [] <==> runs[n].batches == []
    ensures runs[n].batches != [] ==>
              && Rows(runs[n])[0] == runs[n].batches[0][0]
              && Rows(runs[n])[1..] == runs[n].batches[0][1..] + Flatten(runs[n].batches[1..])
  {
  }

  /** A cursor at the first row of a run, if it has one. */
  function Opened<T>(run: SpilledRun<T>): Option<Cursor<T>> {
    if run.batches == [] then None else Some(Cursor(run.batches[0], 0, run.batches[1..]))
  }

  lemma OpenedFits<T>(runs: seq<SpilledRun<T>>, r: nat)
    requires r < |runs| && Readable(runs)
    ensures CursorAt(Opened(runs[r]), FromRun(Begin(AllRows(runs)).heap, r), Begin(AllRows(runs)).rest[r])
  {
    FirstEntryOf(AllRows(runs), |runs|, r);
    OpenedRun(runs, r);
  }

  lemma OpenedNext<T>(runs: seq<SpilledRun<T>>, n: nat)
    requires n < |runs| && Readable(runs)
    ensures FirstEntries(AllRows(runs), n + 1) == FirstEntries(AllRows(runs), n)
              + if runs[n].batches == [] then [] else [Entry(runs[n].batches[0][0], n)]
  {
    OpenedRun(runs, n);
  }

  method OpenCursors<T>(runs: seq<SpilledRun<T>>) returns (cursors: seq<Option<Cursor<T>>>, heap: seq<Entry<T>>)
    requires Readable(runs)
    ensures heap == Begin(AllRows(runs)).heap && CursorsAt(cursors, Begin(AllRows(runs)))
  {
    cursors, heap := [], [];
    for idx := 0 to |runs|
      invariant |cursors| == idx && heap == FirstEntries(AllRows(runs), idx)
      invariant forall r :: 0 <= r < idx ==> cursors[r] == Opened(runs[r])
    {
      OpenedNext(runs, idx);
      var batches := runs[idx].batches;
      if batches != [] {
        heap := heap + [Entry(batches[0][0], idx)];
      }
      cursors := cursors + [Opened(runs[idx])];
    }
    forall r: nat | r < |runs| {
      OpenedFits(runs, r);
    }
  }

  // ---- the merge loop

  /** What has been written plus what is pending is the window of what has been popped. */
  ghost predicate Collected<T>(output: seq<seq<T>>, batches: seq<seq<T>>, pending: seq<(nat, nat)>, done: seq<T>, offset: nat, limit: nat) {
    && PendingIn(pending, batches) && NoEmptyBatch(output)
    && Flatten(output) + Interleave(batches, pending) == Slice(done, offset, limit)
  }

  /** The loop state stands for the merge that has delivered `done` and has `p` to go. */
  ghost predicate Standing<T(!new)>(leq: (T, T) -> bool, pick: Picker<T>, cursors: seq<Option<Cursor<T>>>, p: Progress<T>, done: seq<T>, full: seq<T>)
    requires PicksLeast(leq, pick)
  {
    CursorsAt(cursors, p) && done + Keys(Delivered(leq, pick, p)) == full
  }

  method MergeCursors<T(!new)>(runs: seq<SpilledRun<T>>, offset: nat, limit: nat, ghost leq: (T, T) -> bool, pick: Picker<T>)
    returns (output: seq<seq<T>>)
    requires Readable(runs) && PicksLeast(leq, pick)
    ensures Flatten(output) == Slice(FullMerge(leq, pick, AllRows(runs)), offset, limit)
    ensures NoEmptyBatch(output)
  {
    var cursors, heap := OpenCursors(runs);
    var history: seq<nat> := [];
    var pending: seq<(nat, nat)> := [];
    var skipped, collected := 0, 0;
    output := [];
    ghost var p, done: seq<T> := Begin(AllRows(runs)), [];
    ghost var full := FullMerge(leq, pick, AllRows(runs));
    while heap != []
      invariant p.heap == heap && p.history == history && Standing(leq, pick, cursors, p, done, full)
      invariant skipped == Min(|done|, offset) && collected == |Slice(done, offset, limit)|
      invariant Collected(output, Snapshots(cursors), pending, done, offset, limit)
      decreases |Flatten(p.rest)|, |p.heap|
    {
      var top := pick(history, Keys(heap));
      var run := heap[top].run;
      ghost var x := heap[top].key;
      PoppedCursor(cursors, p, top);
      StandingNext(leq, pick, cursors, p, done, full);
      var row := cursors[run].value.row;

      pending, skipped, collected := Collect(pending, skipped, collected, run, row, offset, limit, output, Snapshots(cursors), done);
      output, cursors, pending, heap := Advance(output, cursors, pending, RemoveAt(heap, top), run);
      history := history + [run];
      done, p := done + [x], Step(pick, p);
      if collected >= limit {
        break;
      }
    }
    if collected >= limit {
      SliceBatches.FullWindow(done, Keys(Delivered(leq, pick, p)), offset, limit);
    } else {
      assert Keys(Delivered(leq, pick, p)) == [];
      assert done + [] == done;
    }
    output := Flush(output, Snapshots(cursors), pending);
  }

  /** The first half of an iteration: a popped row is skipped, collected, or neither. */
  method Collect<T>(pending: seq<(nat, nat)>, skipped: nat, collected: nat, run: nat, row: nat, offset: nat, limit: nat,
                    ghost output: seq<seq<T>>, ghost batches: seq<seq<T>>, ghost done: seq<T>)
    returns (pending': seq<(nat, nat)>, skipped': nat, collected': nat)
    requires run < |batches| && row < |batches[run]|
    requires skipped == Min(|done|, offset) && collected == |Slice(done, offset, limit)|
    requires Collected(output, batches, pending, done, offset, limit)
    ensures skipped' == Min(|done| + 1, offset) && collected' == |Slice(done + [batches[run][row]], offset, limit)|
    ensures Collected(output, batches, pending', done + [batches[run][row]], offset, limit)
  {
    pending', skipped', collected' := pending, skipped, collected;
    WindowNext(done, batches[run][row], offset, limit);
    if skipped < offset {
      skipped' := skipped + 1;
    } else if collected < limit {
      PendOne(output, batches, pending, run, row);
      pending' := pending + [(run, row)];
      collected' := collected + 1;
    }
  }

  lemma StandingNext<T(!new)>(leq: (T, T) -> bool, pick: Picker<T>, cursors: seq<Option<Cursor<T>>>, p: Progress<T>, done: seq<T>, full: seq<T>)
    requires PicksLeast(leq, pick) && p.heap != [] && Standing(leq, pick, cursors, p, done, full)
    ensures var e, next := p.heap[Popped(pick, p)], Step(pick, p);
            && cursors[e.run].Some?
            && Standing(leq, pick, cursors[e.run := Advanced(cursors[e.run].value)], next, done + [e.key], full)
            && (|Flatten(next.rest)| < |Flatten(p.rest)| || (next.rest == p.rest && |next.heap| < |p.heap|))
            && next.heap == RemoveAt(p.heap, Popped(pick, p)) + Pushed(cursors[e.run].value, e.run)
  {
    var i := Popped(pick, p);
    var e := p.heap[i];
    PoppedCursor(cursors, p, i);
    assert CursorAt(cursors[e.run], FromRun(p.heap, e.run), p.rest[e.run]);
    AdvancedFits(cursors[e.run].value);
    CursorsAdvance(pick, cursors, p);
    StepShrinks(pick, p);
    DeliveredNext(leq, pick, p, done);
  }

  /** What advancing a cursor pushes on the heap. */
  function Pushed<T>(c: Cursor<T>, run: nat): seq<Entry<T>> {
    var next := Advanced(c);
    if next.Some? && next.value.row < |next.value.batch| then [Entry(next.value.batch[next.value.row], run)] else []
  }

  /** The second half of an iteration: a batch that is exhausted is flushed and replaced. */
  method Advance<T>(output: seq<seq<T>>, cursors: seq<Option<Cursor<T>>>, pending: seq<(nat, nat)>, heap: seq<Entry<T>>, run: nat)
    returns (output': seq<seq<T>>, cursors': seq<Option<Cursor<T>>>, pending': seq<(nat, nat)>, heap': seq<Entry<T>>)
    requires run < |cursors| && cursors[run].Some? && cursors[run].value.row < |cursors[run].value.batch|
    requires NoEmptyBatch(cursors[run].value.todo) && PendingIn(pending, Snapshots(cursors)) && NoEmptyBatch(output)
    ensures cursors' == cursors[run := Advanced(cursors[run].value)] && heap' == heap + Pushed(cursors[run].value, run)
    ensures PendingIn(pending', Snapshots(cursors')) && NoEmptyBatch(output')
    ensures Flatten(output') + Interleave(Snapshots(cursors'), pending') == Flatten(output) + Interleave(Snapshots(cursors), pending)
  {
    output', cursors', pending', heap' := output, cursors, pending, heap;
    var cursor := cursors[run].value;
    if cursor.row + 1 >= |cursor.batch| {
      output' := Flush(output, Snapshots(cursors), pending);
      pending' := [];
      if cursor.todo != [] {
        var batch := cursor.todo[0];
        cursors' := cursors[run := Some(Cursor(batch, 0, cursor.todo[1..]))];
        heap' := heap + [Entry(batch[0], run)];
      } else {
        cursors' := cursors[run := None];
        assert heap + [] == heap;
      }
      assert Interleave(Snapshots(cursors'), []) == [];
    } else {
      SameSnapshots(cursors, run, cursor.row + 1);
      cursors' := cursors[run := Some(cursor.(row := cursor.row + 1))];
      heap' := heap + [Entry(cursor.batch[cursor.row + 1], run)];
    }
  }

  lemma PendOne<T>(output: seq<seq<T>>, batches: seq<seq<T>>, pending: seq<(nat, nat)>, run: nat, row: nat)
    requires PendingIn(pending, batches) && run < |batches| && row < |batches[run]|
    ensures PendingIn(pending + [(run, row)], batches)
    ensures Flatten(output) + Interleave(batches, pending + [(run, row)]) ==
            Flatten(output) + Interleave(batches, pending) + [batches[run][row]]
  {
    assert Interleave(batches, pending + [(run, row)]) == Interleave(batches, pending) + [batches[run][row]];
  }

  lemma SameSnapshots<T>(cursors: seq<Option<Cursor<T>>>, run: nat, row: nat)
    requires run < |cursors| && cursors[run].Some?
    ensures Snapshots(cursors[run := Some(cursors[run].value.(row := row))]) == Snapshots(cursors)
  {
  }

  /** `emit_pending`, appended to the output unless it is empty. */
  method Flush<T>(output: seq<seq<T>>, batches: seq<seq<T>>, pending: seq<(nat, nat)>) returns (result: seq<seq<T>>)
    requires PendingIn(pending, batches) && NoEmptyBatch(output)
    ensures Flatten(result) == Flatten(output) + Interleave(batches, pending) && NoEmptyBatch(result)
  {
    result := output;
    if pending != [] {
      var out := Interleave(batches, pending);
      FlattenOne(output, out);
      result := output + [out];
    } else {
      assert Interleave(batches, pending) == [];
    }
  }
}
