/** Saving a context to, and rehydrating it from, three keyed repositories: one
    root record per execution, step records keyed by (execution id, step index),
    approval records keyed by (execution id, step name). */
module ContextStore {
  import opened Wrappers
  import opened Types
  import opened Approvals
  import opened ExecutionContext
  import opened SeqFacts

  datatype ContextRecord = ContextRecord(
    id: Guid, goal: string, currentStepIndex: int, startedAt: Timestamp, updatedAt: Timestamp)

  datatype StepRecord = StepRecord(
    executionId: Guid, stepIndex: int, capability: string, agentName: string,
    inputData: string, outputData: string, executedAt: Timestamp)

  datatype ApprovalRecord = ApprovalRecord(
    executionId: Guid, stepName: string, summary: string,
    approved: Option<bool>, approvedBy: Option<string>, approvedAt: Option<Timestamp>)

  /** The three repositories; each lists its records in insertion order. */
  datatype Store = Store(contexts: seq<ContextRecord>, steps: seq<StepRecord>, approvals: seq<ApprovalRecord>)

  const EmptyStore: Store := Store([], [], [])

  function ContextKey(r: ContextRecord): Guid { r.id }
  function StepKey(r: StepRecord): (Guid, int) { (r.executionId, r.stepIndex) }
  function ApprovalKey(r: ApprovalRecord): (Guid, string) { (r.executionId, r.stepName) }
  function StepOwner(r: StepRecord): Guid { r.executionId }
  function ApprovalOwner(r: ApprovalRecord): Guid { r.executionId }

  // ---------------------------------------------------------------------------
  // Keyed tables
  // ---------------------------------------------------------------------------

  /** Position of the first record of `table` whose key is `k`. */
  function FindKey<K(==), R>(table: seq<R>, key: R -> K, k: K): (pos: Option<nat>)
    ensures pos.Some? ==> && pos.value < |table|
                          && key(table[pos.value]) == k
                          && forall j :: 0 <= j < pos.value ==> key(table[j]) != k
    ensures pos.None? ==> forall j :: 0 <= j < |table| ==> key(table[j]) != k
    decreases |table|
  {
    if table == [] then None
    else if key(table[0]) == k then Some(0)
    else match FindKey(table[1..], key, k)
      case Some(p) => Some(p + 1)
      case None => None
  }

  ghost predicate UniqueKeys<K, R>(table: seq<R>, key: R -> K)
  {
    forall i, j :: 0 <= i < j < |table| ==> key(table[i]) != key(table[j])
  }

  /** The repositories' "upsert": an insert that does nothing when a record with
      the same key is already stored. */
  function InsertIfAbsent<K(==), R>(table: seq<R>, key: R -> K, rec: R): (t: seq<R>)
    ensures table <= t
    ensures FindKey(table, key, key(rec)).Some? ==> t == table
    ensures FindKey(table, key, key(rec)).None? ==> t == table + [rec]
    ensures UniqueKeys(table, key) ==> UniqueKeys(t, key)
  {
    if FindKey(table, key, key(rec)).Some? then table else table + [rec]
  }

  /** A true upsert: replaces the stored record with the same key in place, or appends. */
  function Upsert<K(==), R>(table: seq<R>, key: R -> K, rec: R): (t: seq<R>)
    ensures FindKey(table, key, key(rec)).Some? ==>
              |t| == |table| && t[FindKey(table, key, key(rec)).value] == rec
    ensures FindKey(table, key, key(rec)).None? ==> t == table + [rec]
    ensures forall i :: 0 <= i < |table| && key(table[i]) != key(rec) ==> t[i] == table[i]
    ensures forall i :: 0 <= i < |table| ==> key(t[i]) == key(table[i])
    ensures forall i :: 0 <= i < |t| ==> (i < |table| && t[i] == table[i]) || t[i] == rec
  {
    match FindKey(table, key, key(rec))
    case Some(p) => table[p := rec]
    case None => table + [rec]
  }

  /** After an upsert, the first record with the upserted key is the new record. */
  lemma UpsertLocates<K, R>(table: seq<R>, key: R -> K, rec: R)
    ensures var t := Upsert(table, key, rec);
            FindKey(t, key, key(rec)).Some? && t[FindKey(t, key, key(rec)).value] == rec
  {
    var pos := FindKey(table, key, key(rec));
    if pos.Some? {
      var t := table[pos.value := rec];
      assert t[pos.value] == rec;
    } else {
      var t := table + [rec];
      assert t[|table|] == rec;
    }
  }

  /** `p` is the position of the first record with key `k`. */
  lemma FirstKeyAt<K, R>(table: seq<R>, key: R -> K, k: K, p: nat)
    requires p < |table| && key(table[p]) == k
    requires forall j :: 0 <= j < p ==> key(table[j]) != k
    ensures FindKey(table, key, k) == Some(p)
  {
  }

  /** A table that keeps the keys of `a` at `a`'s positions, and may add records
      after them, finds the first record of a key of `a` where `a` does. */
  lemma SameKeysFindKey<K, R>(a: seq<R>, b: seq<R>, key: R -> K, k: K)
    requires |a| <= |b| && forall i :: 0 <= i < |a| ==> key(b[i]) == key(a[i])
    requires FindKey(a, key, k).Some?
    ensures FindKey(b, key, k) == FindKey(a, key, k)
  {
    var p := FindKey(a, key, k).value;
    FirstKeyAt(b, key, k, p);
  }

  /** The repositories' "upsert" applied to each record of a batch in turn. Every
      key of the batch ends up stored; a key stored before keeps its first record,
      and (when the batch's keys are distinct) a new key is found at its batch record. */
  function InsertAllIfAbsent<K(==), R>(table: seq<R>, key: R -> K, recs: seq<R>): (t: seq<R>)
    ensures table <= t
    ensures |t| <= |table| + |recs|
    ensures forall i :: 0 <= i < |recs| ==> FindKey(t, key, key(recs[i])).Some?
    ensures forall i :: 0 <= i < |recs| && FindKey(table, key, key(recs[i])).Some? ==>
              FindKey(t, key, key(recs[i])) == FindKey(table, key, key(recs[i]))
    ensures UniqueKeys(recs, key) ==>
              forall i :: 0 <= i < |recs| && FindKey(table, key, key(recs[i])).None? ==>
                t[FindKey(t, key, key(recs[i])).value] == recs[i]
    decreases |recs|
  {
    if recs == [] then table
    else
      var t1 := InsertIfAbsent(table, key, recs[0]);
      var t := InsertAllIfAbsent(t1, key, recs[1..]);
      InsertAllStep(table, key, recs, t1, t);
      t
  }

  /** The inductive step of `InsertAllIfAbsent`: from the facts about the rest of
      the batch inserted into `t1` to the facts about the whole batch. */
  lemma InsertAllStep<K, R>(table: seq<R>, key: R -> K, recs: seq<R>, t1: seq<R>, t: seq<R>)
    requires |recs| > 0 && t1 == InsertIfAbsent(table, key, recs[0])
    requires t1 <= t
    requires forall i :: 0 <= i < |recs[1..]| ==> FindKey(t, key, key(recs[1..][i])).Some?
    requires forall i :: 0 <= i < |recs[1..]| && FindKey(t1, key, key(recs[1..][i])).Some? ==>
               FindKey(t, key, key(recs[1..][i])) == FindKey(t1, key, key(recs[1..][i]))
    requires UniqueKeys(recs[1..], key) ==>
               forall i :: 0 <= i < |recs[1..]| && FindKey(t1, key, key(recs[1..][i])).None? ==>
                 t[FindKey(t, key, key(recs[1..][i])).value] == recs[1..][i]
    ensures forall i :: 0 <= i < |recs| ==> FindKey(t, key, key(recs[i])).Some?
    ensures forall i :: 0 <= i < |recs| && FindKey(table, key, key(recs[i])).Some? ==>
              FindKey(t, key, key(recs[i])) == FindKey(table, key, key(recs[i]))
    ensures UniqueKeys(recs, key) ==>
              forall i :: 0 <= i < |recs| && FindKey(table, key, key(recs[i])).None? ==>
                t[FindKey(t, key, key(recs[i])).value] == recs[i]
  {
    var k0 := key(recs[0]);
    if FindKey(table, key, k0).None? {
      FirstKeyAfter(table, [recs[0]], key, k0);
    }
    SameKeysFindKey(t1, t, key, k0);
    forall i | 0 <= i < |recs| && FindKey(table, key, key(recs[i])).Some?
      ensures FindKey(t, key, key(recs[i])) == FindKey(table, key, key(recs[i]))
    {
      SameKeysFindKey(table, t1, key, key(recs[i]));
      SameKeysFindKey(t1, t, key, key(recs[i]));
    }
    forall i | 0 < i < |recs|
      ensures FindKey(t, key, key(recs[i])).Some?
    {
      assert recs[1..][i - 1] == recs[i];
    }
    if UniqueKeys(recs, key) {
      forall i | 0 < i < |recs| && FindKey(table, key, key(recs[i])).None?
        ensures t[FindKey(t, key, key(recs[i])).value] == recs[i]
      {
        assert recs[1..][i - 1] == recs[i];
        assert key(recs[0]) != key(recs[i]);
        assert forall j :: 0 <= j < |t1| ==> key(t1[j]) != key(recs[i]);
      }
    }
  }

  /** Every record the batch insert adds comes from the batch. */
  lemma {:induction false} InsertAllAddsBatch<K, R>(table: seq<R>, key: R -> K, recs: seq<R>)
    ensures forall i :: |table| <= i < |InsertAllIfAbsent(table, key, recs)| ==>
              InsertAllIfAbsent(table, key, recs)[i] in recs
    decreases |recs|
  {
    if recs != [] {
      var t1 := InsertIfAbsent(table, key, recs[0]);
      var t := InsertAllIfAbsent(t1, key, recs[1..]);
      assert InsertAllIfAbsent(table, key, recs) == t;
      InsertAllAddsBatch(t1, key, recs[1..]);
      forall i | |table| <= i < |t|
        ensures t[i] in recs
      {
        if i < |t1| {
          assert t[i] == t1[i] == recs[0];
        } else {
          assert t[i] in recs[1..];
          var j :| 0 <= j < |recs[1..]| && recs[1..][j] == t[i];
          assert recs[j + 1] == t[i];
        }
      }
    }
  }

  /** The true upsert applied to each record of a batch in turn. Records keep their
      keys, records whose key the batch does not mention stay where they are, and
      (when the batch's keys are distinct) the first record with each batch key is
      that batch record. */
  function UpsertAll<K(==), R>(table: seq<R>, key: R -> K, recs: seq<R>): (t: seq<R>)
    ensures |table| <= |t| <= |table| + |recs|
    ensures forall i :: 0 <= i < |table| ==> key(t[i]) == key(table[i])
    ensures forall i :: 0 <= i < |table| && (forall j :: 0 <= j < |recs| ==> key(recs[j]) != key(table[i]))
                        ==> t[i] == table[i]
    ensures forall i :: 0 <= i < |recs| ==> FindKey(t, key, key(recs[i])).Some?
    ensures UniqueKeys(recs, key) ==>
              forall i :: 0 <= i < |recs| ==> t[FindKey(t, key, key(recs[i])).value] == recs[i]
    decreases |recs|
  {
    if recs == [] then table
    else
      var t1 := Upsert(table, key, recs[0]);
      var t := UpsertAll(t1, key, recs[1..]);
      UpsertAllStep(table, key, recs, t1, t);
      t
  }

  /** The inductive step of `UpsertAll`. */
  lemma UpsertAllStep<K, R>(table: seq<R>, key: R -> K, recs: seq<R>, t1: seq<R>, t: seq<R>)
    requires |recs| > 0 && t1 == Upsert(table, key, recs[0])
    requires |t1| <= |t| && forall i :: 0 <= i < |t1| ==> key(t[i]) == key(t1[i])
    requires forall i :: 0 <= i < |t1| && (forall j :: 0 <= j < |recs[1..]| ==> key(recs[1..][j]) != key(t1[i]))
                         ==> t[i] == t1[i]
    requires forall i :: 0 <= i < |recs[1..]| ==> FindKey(t, key, key(recs[1..][i])).Some?
    requires UniqueKeys(recs[1..], key) ==>
               forall i :: 0 <= i < |recs[1..]| ==> t[FindKey(t, key, key(recs[1..][i])).value] == recs[1..][i]
    ensures forall i :: 0 <= i < |recs| ==> FindKey(t, key, key(recs[i])).Some?
    ensures UniqueKeys(recs, key) ==>
              forall i :: 0 <= i < |recs| ==> t[FindKey(t, key, key(recs[i])).value] == recs[i]
  {
    var k0 := key(recs[0]);
    UpsertLocates(table, key, recs[0]);
    SameKeysFindKey(t1, t, key, k0);
    forall i | 0 < i < |recs|
      ensures FindKey(t, key, key(recs[i])).Some?
    {
      assert recs[1..][i - 1] == recs[i];
    }
    if UniqueKeys(recs, key) {
      var p := FindKey(t1, key, k0).value;
      forall j | 0 <= j < |recs[1..]|
        ensures key(recs[1..][j]) != key(t1[p])
      {
        assert recs[1..][j] == recs[j + 1];
      }
      forall i | 0 < i < |recs|
        ensures t[FindKey(t, key, key(recs[i])).value] == recs[i]
      {
        assert recs[1..][i - 1] == recs[i];
      }
    }
  }

  /** Every record of the batch upsert's result is the stored record at its
      position or comes from the batch. */
  lemma {:induction false} UpsertAllAddsBatch<K, R>(table: seq<R>, key: R -> K, recs: seq<R>)
    ensures forall i :: 0 <= i < |UpsertAll(table, key, recs)| ==>
              (i < |table| && UpsertAll(table, key, recs)[i] == table[i]) || UpsertAll(table, key, recs)[i] in recs
    decreases |recs|
  {
    if recs != [] {
      var t1 := Upsert(table, key, recs[0]);
      var t := UpsertAll(t1, key, recs[1..]);
      assert UpsertAll(table, key, recs) == t;
      UpsertAllAddsBatch(t1, key, recs[1..]);
      forall i | 0 <= i < |t|
        ensures (i < |table| && t[i] == table[i]) || t[i] in recs
      {
        if t[i] in recs[1..] {
          var j :| 0 <= j < |recs[1..]| && recs[1..][j] == t[i];
          assert recs[j + 1] == t[i];
        } else {
          assert t[i] == t1[i];
          assert (i < |table| && t1[i] == table[i]) || t1[i] == recs[0];
        }
      }
    }
  }

  /** The records of `table` owned by execution `id`, in table order. */
  function Filter<R>(table: seq<R>, owner: R -> Guid, id: Guid): (t: seq<R>)
    ensures forall i :: 0 <= i < |t| ==> owner(t[i]) == id
    ensures forall i :: 0 <= i < |table| && owner(table[i]) == id ==> table[i] in t
    ensures |t| <= |table|
    decreases |table|
  {
    if table == [] then []
    else if owner(table[0]) == id then [table[0]] + Filter(table[1..], owner, id)
    else Filter(table[1..], owner, id)
  }

  /** A one-record table: the record is kept exactly when the run owns it. With
      `FilterAppend` this pins the result down: the owned records, each once, in
      table order. */
  lemma FilterOne<R>(r: R, owner: R -> Guid, id: Guid)
    ensures owner(r) == id ==> Filter([r], owner, id) == [r]
    ensures owner(r) != id ==> Filter([r], owner, id) == []
  {
    assert [r][1..] == [];
  }

  /** Filtering distributes over concatenation, so records keep their relative order. */
  lemma {:induction false} FilterAppend<R>(a: seq<R>, b: seq<R>, owner: R -> Guid, id: Guid)
    ensures Filter(a + b, owner, id) == Filter(a, owner, id) + Filter(b, owner, id)
    decreases |a|
  {
    if a == [] {
      assert a + b == b;
    } else {
      assert (a + b)[0] == a[0];
      assert (a + b)[1..] == a[1..] + b;
      FilterAppend(a[1..], b, owner, id);
      if owner(a[0]) == id {
        assert [a[0]] + (Filter(a[1..], owner, id) + Filter(b, owner, id))
            == [a[0]] + Filter(a[1..], owner, id) + Filter(b, owner, id);
      }
    }
  }

  lemma {:induction false} FilterNone<R>(a: seq<R>, owner: R -> Guid, id: Guid)
    requires forall i :: 0 <= i < |a| ==> owner(a[i]) != id
    ensures Filter(a, owner, id) == []
    decreases |a|
  {
    if a != [] {
      FilterNone(a[1..], owner, id);
    }
  }

  lemma {:induction false} FilterAll<R>(a: seq<R>, owner: R -> Guid, id: Guid)
    requires forall i :: 0 <= i < |a| ==> owner(a[i]) == id
    ensures Filter(a, owner, id) == a
    decreases |a|
  {
    if a != [] {
      FilterAll(a[1..], owner, id);
    }
  }

  /** The first record of `S + P` with the key of `P[0]` is `P[0]` when `S` holds no such key. */
  lemma FirstKeyAfter<K, R>(S: seq<R>, P: seq<R>, key: R -> K, k: K)
    requires |P| > 0 && key(P[0]) == k
    requires forall i :: 0 <= i < |S| ==> key(S[i]) != k
    ensures FindKey(S + P, key, k) == Some(|S|)
  {
    assert (S + P)[|S|] == P[0];
  }

  /** Keys of `R` are disjoint from those of `S`. */
  ghost predicate Disjoint<K, R>(S: seq<R>, R: seq<R>, key: R -> K)
  {
    forall i, j :: 0 <= i < |S| && 0 <= j < |R| ==> key(S[i]) != key(R[j])
  }

  /** `P` holds, position by position, records with the keys of a prefix of `R`. */
  ghost predicate KeyPrefix<K, R>(P: seq<R>, R: seq<R>, key: R -> K)
  {
    |P| <= |R| && forall i :: 0 <= i < |P| ==> key(P[i]) == key(R[i])
  }

  /** Moving the first record of `R` (or one with its key) into `S` keeps `S`
      disjoint from the rest of `R`. */
  lemma DisjointShift<K, R>(S: seq<R>, x: R, R: seq<R>, key: R -> K)
    requires Disjoint(S, R, key) && UniqueKeys(R, key) && |R| > 0 && key(x) == key(R[0])
    ensures Disjoint(S + [x], R[1..], key)
  {
    forall i, j | 0 <= i < |S + [x]| && 0 <= j < |R[1..]|
      ensures key((S + [x])[i]) != key(R[1..][j])
    {
      if i == |S| {
        assert key(R[0]) != key(R[j + 1]);
      } else {
        assert key(S[i]) != key(R[j + 1]);
      }
    }
  }

  /** Saving records `R` into a table `S + P`, where `S` shares no key with `R`,
      the keys of `R` are distinct and `P` is an earlier save of a prefix of `R`'s
      keys: insert-if-absent keeps `P` and adds only the records with new keys. */
  lemma {:induction false} InsertAllKeepsEarlier<K, R>(S: seq<R>, P: seq<R>, R: seq<R>, key: R -> K)
    requires Disjoint(S, R, key) && UniqueKeys(R, key) && KeyPrefix(P, R, key)
    ensures InsertAllIfAbsent(S + P, key, R) == S + P + R[|P|..]
    decreases |R|
  {
    if R == [] {
      assert R[|P|..] == [];
    } else {
      var r := R[0];
      assert forall i :: 0 <= i < |S| ==> key(S[i]) != key(r);
      if |P| > 0 {
        FirstKeyAfter(S, P, key, key(r));
        ConsTail(S, P);
        DisjointShift(S, P[0], R, key);
        InsertAllKeepsEarlier(S + [P[0]], P[1..], R[1..], key);
        DropDrop(R, |P|);
      } else {
        assert S + P == S;
        DisjointShift(S, r, R, key);
        InsertAllKeepsEarlier(S + [r], [], R[1..], key);
        ConsTail(S, R);
        assert S + [r] + [] == S + [r];
        assert R[1..][0..] == R[1..];
      }
    }
  }

  /** Re-saving records whose first `n` were saved before leaves exactly one copy of each. */
  lemma InsertAllPrefix<K, R>(S: seq<R>, R: seq<R>, n: nat, key: R -> K)
    requires Disjoint(S, R, key) && UniqueKeys(R, key) && n <= |R|
    ensures InsertAllIfAbsent(S + R[..n], key, R) == S + R
  {
    var P := R[..n];
    assert KeyPrefix(P, R, key);
    InsertAllKeepsEarlier(S, P, R, key);
    assert |P| == n;
    SplitJoin(R, n);
    AppendAssoc(S, P, R[n..]);
  }

  /** Under the same conditions, a true upsert replaces `P` by the matching records. */
  lemma {:induction false} UpsertAllReplacesEarlier<K, R>(S: seq<R>, P: seq<R>, R: seq<R>, key: R -> K)
    requires Disjoint(S, R, key) && UniqueKeys(R, key) && KeyPrefix(P, R, key)
    ensures UpsertAll(S + P, key, R) == S + R
    decreases |R|
  {
    if R == [] {
      assert |P| == 0;
      assert S + P == S + R;
    } else {
      var r := R[0];
      assert forall i :: 0 <= i < |S| ==> key(S[i]) != key(r);
      DisjointShift(S, r, R, key);
      if |P| > 0 {
        FirstKeyAfter(S, P, key, key(r));
        assert Upsert(S + P, key, r) == (S + P)[|S| := r];
        ReplaceHead(S, P, r);
        UpsertAllReplacesEarlier(S + [r], P[1..], R[1..], key);
      } else {
        assert S + P == S;
        UpsertAllReplacesEarlier(S + [r], [], R[1..], key);
        assert S + [r] + [] == S + [r];
      }
      ConsTail(S, R);
    }
  }

  // ---------------------------------------------------------------------------
  // Record mapping
  // ---------------------------------------------------------------------------

  /** The root record a save writes: the run's identity, goal, cursor and start
      time, stamped with the save time. */
  function RootRecord(ctx: Context, now: Timestamp): (r: ContextRecord)
    ensures ContextKey(r) == ctx.id && r.updatedAt == now
    ensures RootContext(r, ctx.steps, ctx.approvals) == ctx
  {
    ContextRecord(ctx.id, ctx.goal, ctx.cursor, ctx.startedAt, now)
  }

  /** The context a load rebuilds from a root record and the rehydrated log and ledger. */
  function RootContext(root: ContextRecord, steps: seq<ExecutionStep>, approvals: seq<Approval>): Context
  {
    Context(root.id, root.startedAt, root.goal, steps, approvals, root.currentStepIndex)
  }

  function StepToRecord(id: Guid, s: ExecutionStep): (r: StepRecord)
    ensures StepKey(r) == (id, s.stepIndex)
    ensures StepFromRecord(r) == s
  {
    StepRecord(id, s.stepIndex, s.capability, s.agentName, s.inputData, s.outputData, s.executedAt)
  }

  function StepFromRecord(r: StepRecord): ExecutionStep
  {
    ExecutionStep(r.capability, r.agentName, r.inputData, r.outputData, r.stepIndex, r.executedAt)
  }

  function ApprovalToRecord(id: Guid, a: Approval): (r: ApprovalRecord)
    ensures ApprovalKey(r) == (id, a.stepName)
    ensures ApprovalFromRecord(r) == a
  {
    ApprovalRecord(id, a.stepName, a.summary, a.approved, a.approvedBy, a.approvedAt)
  }

  function ApprovalFromRecord(r: ApprovalRecord): Approval
  {
    Approval(r.stepName, r.summary, r.approved, r.approvedBy, r.approvedAt)
  }

  /** Rehydrating a stored record and writing it back under its own run gives the
      same record: loading loses no field a save wrote. */
  lemma FromRecordRoundTrip(s: StepRecord, a: ApprovalRecord)
    ensures StepToRecord(s.executionId, StepFromRecord(s)) == s
    ensures ApprovalToRecord(a.executionId, ApprovalFromRecord(a)) == a
  {
  }

  /** One step record per log entry, in log order. */
  function StepRecords(ctx: Context): (rs: seq<StepRecord>)
    ensures |rs| == |ctx.steps|
    ensures forall i :: 0 <= i < |rs| ==> rs[i] == StepToRecord(ctx.id, ctx.steps[i])
  {
    seq(|ctx.steps|, i requires 0 <= i < |ctx.steps| => StepToRecord(ctx.id, ctx.steps[i]))
  }

  /** One approval record per ledger entry, in ledger order. */
  function ApprovalRecords(ctx: Context): (rs: seq<ApprovalRecord>)
    ensures |rs| == |ctx.approvals|
    ensures forall i :: 0 <= i < |rs| ==> rs[i] == ApprovalToRecord(ctx.id, ctx.approvals[i])
  {
    seq(|ctx.approvals|, i requires 0 <= i < |ctx.approvals| => ApprovalToRecord(ctx.id, ctx.approvals[i]))
  }

  function StepsFromRecords(rs: seq<StepRecord>): (steps: seq<ExecutionStep>)
    ensures |steps| == |rs|
    ensures forall i :: 0 <= i < |rs| ==> steps[i] == StepFromRecord(rs[i])
  {
    seq(|rs|, i requires 0 <= i < |rs| => StepFromRecord(rs[i]))
  }

  function ApprovalsFromRecords(rs: seq<ApprovalRecord>): (ledger: seq<Approval>)
    ensures |ledger| == |rs|
    ensures forall i :: 0 <= i < |rs| ==> ledger[i] == ApprovalFromRecord(rs[i])
  {
    seq(|rs|, i requires 0 <= i < |rs| => ApprovalFromRecord(rs[i]))
  }

  // ---------------------------------------------------------------------------
  // Ordering steps by index
  // ---------------------------------------------------------------------------

  ghost predicate SortedByIndex(rs: seq<StepRecord>)
  {
    forall i, j :: 0 <= i < j < |rs| ==> rs[i].stepIndex <= rs[j].stepIndex
  }

  /** Inserts `r` after every record whose index is not greater than its own. */
  function InsertByIndex(r: StepRecord, sorted: seq<StepRecord>): (t: seq<StepRecord>)
    requires SortedByIndex(sorted)
    ensures SortedByIndex(t)
    ensures multiset(t) == multiset(sorted) + multiset{r}
    decreases |sorted|, 0
  {
    if sorted == [] || sorted[|sorted| - 1].stepIndex <= r.stepIndex then sorted + [r]
    else
      var last := sorted[|sorted| - 1];
      var init := sorted[..|sorted| - 1];
      assert SortedByIndex(init);
      var t := InsertByIndex(r, init);
      InsertKeepsBound(r, init, last.stepIndex);
      SortedSnoc(t, last);
      assert sorted == init + [last];
      t + [last]
  }

  lemma SortedSnoc(t: seq<StepRecord>, x: StepRecord)
    requires SortedByIndex(t)
    requires forall i :: 0 <= i < |t| ==> t[i].stepIndex <= x.stepIndex
    ensures SortedByIndex(t + [x])
  {
  }

  /** Inserting a record into records whose indices are all at most `b` keeps
      every index at most `b`, when the new record's is too. */
  lemma {:induction false} InsertKeepsBound(r: StepRecord, sorted: seq<StepRecord>, b: int)
    requires SortedByIndex(sorted) && r.stepIndex <= b
    requires forall i :: 0 <= i < |sorted| ==> sorted[i].stepIndex <= b
    ensures forall i :: 0 <= i < |InsertByIndex(r, sorted)| ==> InsertByIndex(r, sorted)[i].stepIndex <= b
    decreases |sorted|, 1
  {
    if !(sorted == [] || sorted[|sorted| - 1].stepIndex <= r.stepIndex) {
      var init := sorted[..|sorted| - 1];
      InsertKeepsBound(r, init, b);
    }
  }

  /** A stable sort of step records by ascending step index. */
  function SortByIndex(rs: seq<StepRecord>): (t: seq<StepRecord>)
    ensures SortedByIndex(t)
    ensures multiset(t) == multiset(rs)
    decreases |rs|
  {
    if rs == [] then []
    else
      assert rs == rs[..|rs| - 1] + [rs[|rs| - 1]];
      InsertByIndex(rs[|rs| - 1], SortByIndex(rs[..|rs| - 1]))
  }

  /** Records already in index order are left as they are. */
  lemma {:induction false} SortKeepsSorted(rs: seq<StepRecord>)
    requires SortedByIndex(rs)
    ensures SortByIndex(rs) == rs
    decreases |rs|
  {
    if rs != [] {
      var init := rs[..|rs| - 1];
      var last := rs[|rs| - 1];
      assert rs == init + [last];
      assert SortedByIndex(init);
      SortKeepsSorted(init);
      assert SortByIndex(rs) == InsertByIndex(last, init);
    }
  }

  // ---------------------------------------------------------------------------
  // Save and load
  // ---------------------------------------------------------------------------

  /** Writes the root record, then one record per log entry, then one per ledger
      entry, each through the repositories' insert-if-absent "upsert". Only records
      of the run are added, every entry ends up stored under its key, and nothing
      stored before changes. */
  function Save(store: Store, ctx: Context, now: Timestamp): (s: Store)
    ensures store.contexts <= s.contexts && store.steps <= s.steps && store.approvals <= s.approvals
    ensures FindKey(store.contexts, ContextKey, ctx.id).Some? ==> s.contexts == store.contexts
    ensures FindKey(store.contexts, ContextKey, ctx.id).None? ==>
              s.contexts == store.contexts + [RootRecord(ctx, now)]
    ensures ChangesOnlyRun(store.contexts, s.contexts, ContextKey, ctx.id)
    ensures ChangesOnlyRun(store.steps, s.steps, StepOwner, ctx.id) && HoldsNewLog(store.steps, s.steps, ctx)
    ensures ChangesOnlyRun(store.approvals, s.approvals, ApprovalOwner, ctx.id)
            && HoldsNewLedger(store.approvals, s.approvals, ctx)
    ensures |s.steps| <= |store.steps| + |ctx.steps| && |s.approvals| <= |store.approvals| + |ctx.approvals|
  {
    InsertRootRecord(store.contexts, ctx, now);
    InsertStepRecords(store.steps, ctx);
    InsertApprovalRecords(store.approvals, ctx);
    Store(
      InsertIfAbsent(store.contexts, ContextKey, RootRecord(ctx, now)),
      InsertAllIfAbsent(store.steps, StepKey, StepRecords(ctx)),
      InsertAllIfAbsent(store.approvals, ApprovalKey, ApprovalRecords(ctx)))
  }

  /** `after` differs from `before` only in records of run `id`: every stored
      position keeps its owner, records of other runs stay as they were, and every
      added record belongs to `id`. */
  ghost predicate ChangesOnlyRun<R>(before: seq<R>, after: seq<R>, owner: R -> Guid, id: Guid)
  {
    && |before| <= |after|
    && (forall i :: 0 <= i < |before| ==> owner(after[i]) == owner(before[i]))
    && (forall i :: 0 <= i < |before| && owner(before[i]) != id ==> after[i] == before[i])
    && (forall i :: |before| <= i < |after| ==> owner(after[i]) == id)
  }

  /** Every log entry of `ctx` has a record in `t` under its key; when the entries'
      keys are distinct, an entry whose key `before` did not hold is found at its
      own record. */
  ghost predicate HoldsNewLog(before: seq<StepRecord>, t: seq<StepRecord>, ctx: Context)
  {
    && (forall i :: 0 <= i < |ctx.steps| ==> FindKey(t, StepKey, (ctx.id, ctx.steps[i].stepIndex)).Some?)
    && (UniqueKeys(StepRecords(ctx), StepKey) ==>
          forall i :: 0 <= i < |ctx.steps| && FindKey(before, StepKey, (ctx.id, ctx.steps[i].stepIndex)).None? ==>
            t[FindKey(t, StepKey, (ctx.id, ctx.steps[i].stepIndex)).value] == StepToRecord(ctx.id, ctx.steps[i]))
  }

  /** Every ledger entry of `ctx` has a record in `t` under its key; when the entries'
      keys are distinct, an entry whose key `before` did not hold is found at its
      own record. */
  ghost predicate HoldsNewLedger(before: seq<ApprovalRecord>, t: seq<ApprovalRecord>, ctx: Context)
  {
    && (forall i :: 0 <= i < |ctx.approvals| ==> FindKey(t, ApprovalKey, (ctx.id, ctx.approvals[i].stepName)).Some?)
    && (UniqueKeys(ApprovalRecords(ctx), ApprovalKey) ==>
          forall i :: 0 <= i < |ctx.approvals| && FindKey(before, ApprovalKey, (ctx.id, ctx.approvals[i].stepName)).None? ==>
            t[FindKey(t, ApprovalKey, (ctx.id, ctx.approvals[i].stepName)).value]
              == ApprovalToRecord(ctx.id, ctx.approvals[i]))
  }

  lemma InsertRootRecord(table: seq<ContextRecord>, ctx: Context, now: Timestamp)
    ensures ChangesOnlyRun(table, InsertIfAbsent(table, ContextKey, RootRecord(ctx, now)), ContextKey, ctx.id)
  {
  }

  lemma InsertStepRecords(table: seq<StepRecord>, ctx: Context)
    ensures var t := InsertAllIfAbsent(table, StepKey, StepRecords(ctx));
            ChangesOnlyRun(table, t, StepOwner, ctx.id) && HoldsNewLog(table, t, ctx)
  {
    var recs := StepRecords(ctx);
    var t := InsertAllIfAbsent(table, StepKey, recs);
    forall i | 0 <= i < |ctx.steps|
      ensures StepKey(recs[i]) == (ctx.id, ctx.steps[i].stepIndex)
    {
    }
    InsertAllAddsBatch(table, StepKey, recs);
    forall i | |table| <= i < |t|
      ensures StepOwner(t[i]) == ctx.id
    {
      assert t[i] in recs;
    }
  }

  lemma InsertApprovalRecords(table: seq<ApprovalRecord>, ctx: Context)
    ensures var t := InsertAllIfAbsent(table, ApprovalKey, ApprovalRecords(ctx));
            ChangesOnlyRun(table, t, ApprovalOwner, ctx.id) && HoldsNewLedger(table, t, ctx)
  {
    var recs := ApprovalRecords(ctx);
    var t := InsertAllIfAbsent(table, ApprovalKey, recs);
    forall i | 0 <= i < |ctx.approvals|
      ensures ApprovalKey(recs[i]) == (ctx.id, ctx.approvals[i].stepName)
    {
    }
    InsertAllAddsBatch(table, ApprovalKey, recs);
    forall i | |table| <= i < |t|
      ensures ApprovalOwner(t[i]) == ctx.id
    {
      assert t[i] in recs;
    }
  }

  /** Rehydrates execution `id`: None when it has no root record; the log is
      sorted by step index, the ledger is in repository order. */
  function Load(store: Store, id: Guid): (r: Result<Option<Context>, Error>)
    ensures id == EmptyGuid ==> r == Err(EmptyExecutionId)
    ensures id != EmptyGuid ==> r.Ok?
    ensures r.Ok? && r.value.None? ==> FindKey(store.contexts, ContextKey, id).None?
    ensures r.Ok? && r.value.Some? ==>
              && FindKey(store.contexts, ContextKey, id).Some?
              && var root := store.contexts[FindKey(store.contexts, ContextKey, id).value];
              var c := r.value.value;
              && c.id == id && c.goal == root.goal && c.cursor == root.currentStepIndex
              && c.startedAt == root.startedAt
              && (forall i, j :: 0 <= i < j < |c.steps| ==> c.steps[i].stepIndex <= c.steps[j].stepIndex)
              && |c.steps| == |Filter(store.steps, StepOwner, id)|
              && c.approvals == ApprovalsFromRecords(Filter(store.approvals, ApprovalOwner, id))
  {
    if id == EmptyGuid then Err(EmptyExecutionId)
    else match FindKey(store.contexts, ContextKey, id)
      case None => Ok(None)
      case Some(p) =>
        var root := store.contexts[p];
        var steps := SortByIndex(Filter(store.steps, StepOwner, id));
        assert |steps| == |Filter(store.steps, StepOwner, id)| by {
          assert |multiset(steps)| == |multiset(Filter(store.steps, StepOwner, id))|;
        }
        var approvals := Filter(store.approvals, ApprovalOwner, id);
        Ok(Some(RootContext(root, StepsFromRecords(steps), ApprovalsFromRecords(approvals))))
  }

  /** Every log entry of `ctx` has a record in `t` under its key; when the entries'
      keys are distinct, the first record found for each is that entry's record. */
  ghost predicate HoldsLog(t: seq<StepRecord>, ctx: Context)
  {
    && (forall i :: 0 <= i < |ctx.steps| ==> FindKey(t, StepKey, (ctx.id, ctx.steps[i].stepIndex)).Some?)
    && (UniqueKeys(StepRecords(ctx), StepKey) ==>
          forall i :: 0 <= i < |ctx.steps| ==>
            t[FindKey(t, StepKey, (ctx.id, ctx.steps[i].stepIndex)).value] == StepToRecord(ctx.id, ctx.steps[i]))
  }

  /** Every ledger entry of `ctx` has a record in `t` under its key; when the entries'
      keys are distinct, the first record found for each is that entry's record. */
  ghost predicate HoldsLedger(t: seq<ApprovalRecord>, ctx: Context)
  {
    && (forall i :: 0 <= i < |ctx.approvals| ==> FindKey(t, ApprovalKey, (ctx.id, ctx.approvals[i].stepName)).Some?)
    && (UniqueKeys(ApprovalRecords(ctx), ApprovalKey) ==>
          forall i :: 0 <= i < |ctx.approvals| ==>
            t[FindKey(t, ApprovalKey, (ctx.id, ctx.approvals[i].stepName)).value]
              == ApprovalToRecord(ctx.id, ctx.approvals[i]))
  }

  /** The corrected save: the same writes through a true upsert. The first root
      record of the run is the new one, every log and ledger entry is found at its
      own record, and only records of the run change or are added. */
  function SaveUpsert(store: Store, ctx: Context, now: Timestamp): (s: Store)
    ensures FindKey(s.contexts, ContextKey, ctx.id).Some?
    ensures s.contexts[FindKey(s.contexts, ContextKey, ctx.id).value] == RootRecord(ctx, now)
    ensures ChangesOnlyRun(store.contexts, s.contexts, ContextKey, ctx.id)
    ensures ChangesOnlyRun(store.steps, s.steps, StepOwner, ctx.id) && HoldsLog(s.steps, ctx)
    ensures ChangesOnlyRun(store.approvals, s.approvals, ApprovalOwner, ctx.id) && HoldsLedger(s.approvals, ctx)
    ensures |s.steps| <= |store.steps| + |ctx.steps| && |s.approvals| <= |store.approvals| + |ctx.approvals|
  {
    UpsertLocates(store.contexts, ContextKey, RootRecord(ctx, now));
    UpsertRootRecord(store.contexts, ctx, now);
    UpsertStepRecords(store.steps, ctx);
    UpsertApprovalRecords(store.approvals, ctx);
    Store(
      Upsert(store.contexts, ContextKey, RootRecord(ctx, now)),
      UpsertAll(store.steps, StepKey, StepRecords(ctx)),
      UpsertAll(store.approvals, ApprovalKey, ApprovalRecords(ctx)))
  }

  lemma UpsertRootRecord(table: seq<ContextRecord>, ctx: Context, now: Timestamp)
    ensures ChangesOnlyRun(table, Upsert(table, ContextKey, RootRecord(ctx, now)), ContextKey, ctx.id)
  {
  }

  /** Upserting a run's log records changes only the run's records and locates
      each entry at its own record. */
  lemma UpsertStepRecords(table: seq<StepRecord>, ctx: Context)
    ensures var t := UpsertAll(table, StepKey, StepRecords(ctx));
            ChangesOnlyRun(table, t, StepOwner, ctx.id) && HoldsLog(t, ctx)
  {
    var recs := StepRecords(ctx);
    var t := UpsertAll(table, StepKey, recs);
    forall i | 0 <= i < |ctx.steps|
      ensures StepKey(recs[i]) == (ctx.id, ctx.steps[i].stepIndex)
    {
    }
    forall i | 0 <= i < |table|
      ensures StepOwner(t[i]) == StepOwner(table[i])
      ensures StepOwner(table[i]) != ctx.id ==> t[i] == table[i]
    {
      assert StepKey(t[i]) == StepKey(table[i]);
      if StepOwner(table[i]) != ctx.id {
        forall j | 0 <= j < |recs|
          ensures StepKey(recs[j]) != StepKey(table[i])
        {
          assert StepOwner(recs[j]) == ctx.id;
        }
      }
    }
    UpsertAllAddsBatch(table, StepKey, recs);
    forall i | |table| <= i < |t|
      ensures StepOwner(t[i]) == ctx.id
    {
      assert t[i] in recs;
    }
  }

  /** Upserting a run's ledger records changes only the run's records and locates
      each entry at its own record. */
  lemma UpsertApprovalRecords(table: seq<ApprovalRecord>, ctx: Context)
    ensures var t := UpsertAll(table, ApprovalKey, ApprovalRecords(ctx));
            ChangesOnlyRun(table, t, ApprovalOwner, ctx.id) && HoldsLedger(t, ctx)
  {
    var recs := ApprovalRecords(ctx);
    var t := UpsertAll(table, ApprovalKey, recs);
    forall i | 0 <= i < |ctx.approvals|
      ensures ApprovalKey(recs[i]) == (ctx.id, ctx.approvals[i].stepName)
    {
    }
    forall i | 0 <= i < |table|
      ensures ApprovalOwner(t[i]) == ApprovalOwner(table[i])
      ensures ApprovalOwner(table[i]) != ctx.id ==> t[i] == table[i]
    {
      assert ApprovalKey(t[i]) == ApprovalKey(table[i]);
      if ApprovalOwner(table[i]) != ctx.id {
        forall j | 0 <= j < |recs|
          ensures ApprovalKey(recs[j]) != ApprovalKey(table[i])
        {
          assert ApprovalOwner(recs[j]) == ctx.id;
        }
      }
    }
    UpsertAllAddsBatch(table, ApprovalKey, recs);
    forall i | |table| <= i < |t|
      ensures ApprovalOwner(t[i]) == ctx.id
    {
      assert t[i] in recs;
    }
  }

  /** Equal-length tables whose records agree on their owners, and agree outright
      on the records of run `id`, hold the same records of run `id`. */
  lemma {:induction false} FilterPointwise<R>(a: seq<R>, b: seq<R>, owner: R -> Guid, id: Guid)
    requires |a| == |b|
    requires forall i :: 0 <= i < |a| ==> owner(b[i]) == owner(a[i])
    requires forall i :: 0 <= i < |a| && owner(a[i]) == id ==> b[i] == a[i]
    ensures Filter(b, owner, id) == Filter(a, owner, id)
    decreases |a|
  {
    if a != [] {
      assert forall i :: 0 <= i < |a[1..]| ==> a[1..][i] == a[i + 1] && b[1..][i] == b[i + 1];
      FilterPointwise(a[1..], b[1..], owner, id);
    }
  }

  /** A table changed only by records of run `run` holds the same records of any
      other run. */
  lemma FilterFrame<R>(before: seq<R>, after: seq<R>, owner: R -> Guid, run: Guid, id: Guid)
    requires id != run && ChangesOnlyRun(before, after, owner, run)
    ensures Filter(after, owner, id) == Filter(before, owner, id)
  {
    var n := |before|;
    assert after == after[..n] + after[n..];
    FilterAppend(after[..n], after[n..], owner, id);
    FilterNone(after[n..], owner, id);
    FilterPointwise(before, after[..n], owner, id);
    assert Filter(after[..n], owner, id) + [] == Filter(after[..n], owner, id);
  }

  /** A root table changed only by run `run` finds the same root record for any
      other run. */
  lemma FindKeyFrame(before: seq<ContextRecord>, after: seq<ContextRecord>, run: Guid, id: Guid)
    requires id != run && ChangesOnlyRun(before, after, ContextKey, run)
    ensures FindKey(after, ContextKey, id) == FindKey(before, ContextKey, id)
    ensures FindKey(before, ContextKey, id).Some? ==>
              after[FindKey(before, ContextKey, id).value] == before[FindKey(before, ContextKey, id).value]
  {
    if FindKey(before, ContextKey, id).Some? {
      SameKeysFindKey(before, after, ContextKey, id);
    } else {
      forall i | 0 <= i < |after|
        ensures ContextKey(after[i]) != id
      {
        if i < |before| {
          assert ContextKey(after[i]) == ContextKey(before[i]);
        }
      }
    }
  }

  /** A store changed only by run `run` loads every other run as before. */
  lemma LoadFrame(store: Store, s: Store, run: Guid, id: Guid)
    requires id != run
    requires ChangesOnlyRun(store.contexts, s.contexts, ContextKey, run)
    requires ChangesOnlyRun(store.steps, s.steps, StepOwner, run)
    requires ChangesOnlyRun(store.approvals, s.approvals, ApprovalOwner, run)
    ensures Load(s, id) == Load(store, id)
  {
    FindKeyFrame(store.contexts, s.contexts, run, id);
    FilterFrame(store.steps, s.steps, StepOwner, run, id);
    FilterFrame(store.approvals, s.approvals, ApprovalOwner, run, id);
  }

  /** Saving one run leaves the load of every other run unchanged. */
  lemma SaveKeepsOtherLoads(store: Store, ctx: Context, now: Timestamp, id: Guid)
    requires id != ctx.id
    ensures Load(Save(store, ctx, now), id) == Load(store, id)
  {
    LoadFrame(store, Save(store, ctx, now), ctx.id, id);
  }

  /** Under the corrected save too, saving one run leaves the load of every other
      run unchanged. */
  lemma SaveUpsertKeepsOtherLoads(store: Store, ctx: Context, now: Timestamp, id: Guid)
    requires id != ctx.id
    ensures Load(SaveUpsert(store, ctx, now), id) == Load(store, id)
  {
    LoadFrame(store, SaveUpsert(store, ctx, now), ctx.id, id);
  }

  /** The store holds no record of execution `id`. */
  ghost predicate Fresh(store: Store, id: Guid)
  {
    && (forall i :: 0 <= i < |store.contexts| ==> store.contexts[i].id != id)
    && (forall i :: 0 <= i < |store.steps| ==> store.steps[i].executionId != id)
    && (forall i :: 0 <= i < |store.approvals| ==> store.approvals[i].executionId != id)
  }

  /** A context whose records all come back from a save: a real id, strictly
      increasing step indices (true of any log the orchestrator writes) and one
      approval per step name (true of any ledger the gates write). */
  ghost predicate Persistable(ctx: Context)
  {
    && ctx.id != EmptyGuid
    && (forall i, j :: 0 <= i < j < |ctx.steps| ==> ctx.steps[i].stepIndex < ctx.steps[j].stepIndex)
    && UniqueNames(ctx.approvals)
  }

  lemma WfIsPersistable(ctx: Context)
    requires Wf(ctx) && ctx.id != EmptyGuid
    ensures Persistable(ctx)
  {
  }

  /** `ctx0` is an earlier state of the run `ctx`: same identity, a prefix of its
      log, and ledger entries for a prefix of its step names. */
  ghost predicate EarlierState(ctx0: Context, ctx: Context)
  {
    && ctx0.id == ctx.id && ctx0.goal == ctx.goal && ctx0.startedAt == ctx.startedAt
    && ctx0.steps <= ctx.steps
    && |ctx0.approvals| <= |ctx.approvals|
    && forall i :: 0 <= i < |ctx0.approvals| ==> ctx0.approvals[i].stepName == ctx.approvals[i].stepName
  }

  lemma StepKeysDistinct(store: Store, ctx: Context)
    requires Fresh(store, ctx.id) && Persistable(ctx)
    ensures Disjoint(store.steps, StepRecords(ctx), StepKey) && UniqueKeys(StepRecords(ctx), StepKey)
  {
  }

  lemma ApprovalKeysDistinct(store: Store, ctx: Context)
    requires Fresh(store, ctx.id) && Persistable(ctx)
    ensures Disjoint(store.approvals, ApprovalRecords(ctx), ApprovalKey)
    ensures UniqueKeys(ApprovalRecords(ctx), ApprovalKey)
  {
  }

  lemma RecordFacts(store: Store, ctx: Context)
    requires Fresh(store, ctx.id) && Persistable(ctx)
    ensures Disjoint(store.steps, StepRecords(ctx), StepKey) && UniqueKeys(StepRecords(ctx), StepKey)
    ensures Disjoint(store.approvals, ApprovalRecords(ctx), ApprovalKey)
    ensures UniqueKeys(ApprovalRecords(ctx), ApprovalKey)
    ensures SortedByIndex(StepRecords(ctx))
    ensures StepsFromRecords(StepRecords(ctx)) == ctx.steps
    ensures ApprovalsFromRecords(ApprovalRecords(ctx)) == ctx.approvals
    ensures forall i :: 0 <= i < |StepRecords(ctx)| ==> StepOwner(StepRecords(ctx)[i]) == ctx.id
    ensures forall i :: 0 <= i < |ApprovalRecords(ctx)| ==> ApprovalOwner(ApprovalRecords(ctx)[i]) == ctx.id
  {
  }

  /** Loading from tables that hold, for `id`, exactly the appended records. */
  lemma LoadAppended(store: Store, root: ContextRecord, steps: seq<StepRecord>, approvals: seq<ApprovalRecord>)
    requires Fresh(store, root.id) && root.id != EmptyGuid
    requires forall i :: 0 <= i < |steps| ==> StepOwner(steps[i]) == root.id
    requires forall i :: 0 <= i < |approvals| ==> ApprovalOwner(approvals[i]) == root.id
    requires SortedByIndex(steps)
    ensures Load(Store(store.contexts + [root], store.steps + steps, store.approvals + approvals), root.id)
         == Ok(Some(Context(root.id, root.startedAt, root.goal, StepsFromRecords(steps),
                            ApprovalsFromRecords(approvals), root.currentStepIndex)))
  {
    var id := root.id;
    FirstKeyAfter(store.contexts, [root], ContextKey, id);
    FilterAppend(store.steps, steps, StepOwner, id);
    FilterNone(store.steps, StepOwner, id);
    FilterAll(steps, StepOwner, id);
    assert [] + steps == steps;
    SortKeepsSorted(steps);
    FilterAppend(store.approvals, approvals, ApprovalOwner, id);
    FilterNone(store.approvals, ApprovalOwner, id);
    FilterAll(approvals, ApprovalOwner, id);
    assert [] + approvals == approvals;
  }

  /** Saving into a store that holds nothing of `ctx` appends all of its records. */
  lemma SaveFresh(store: Store, ctx: Context, now: Timestamp)
    requires Fresh(store, ctx.id) && Persistable(ctx)
    ensures Save(store, ctx, now) == Store(store.contexts + [RootRecord(ctx, now)],
                                           store.steps + StepRecords(ctx),
                                           store.approvals + ApprovalRecords(ctx))
    ensures SaveUpsert(store, ctx, now) == Save(store, ctx, now)
  {
    RecordFacts(store, ctx);
    SaveFreshInserts(store, ctx, now);
    SaveFreshUpserts(store, ctx, now);
  }

  /** On a fresh store the insert-if-absent save appends every record. */
  lemma SaveFreshInserts(store: Store, ctx: Context, now: Timestamp)
    requires Disjoint(store.steps, StepRecords(ctx), StepKey) && UniqueKeys(StepRecords(ctx), StepKey)
    requires Disjoint(store.approvals, ApprovalRecords(ctx), ApprovalKey)
    requires UniqueKeys(ApprovalRecords(ctx), ApprovalKey)
    requires FindKey(store.contexts, ContextKey, ctx.id).None?
    ensures Save(store, ctx, now) == Store(store.contexts + [RootRecord(ctx, now)],
                                           store.steps + StepRecords(ctx),
                                           store.approvals + ApprovalRecords(ctx))
  {
    InsertAllKeepsEarlier(store.steps, [], StepRecords(ctx), StepKey);
    InsertAllKeepsEarlier(store.approvals, [], ApprovalRecords(ctx), ApprovalKey);
    assert store.steps + [] == store.steps;
    assert store.approvals + [] == store.approvals;
    assert StepRecords(ctx)[0..] == StepRecords(ctx);
    assert ApprovalRecords(ctx)[0..] == ApprovalRecords(ctx);
  }

  /** On a fresh store the true upsert appends every record too. */
  lemma SaveFreshUpserts(store: Store, ctx: Context, now: Timestamp)
    requires Disjoint(store.steps, StepRecords(ctx), StepKey) && UniqueKeys(StepRecords(ctx), StepKey)
    requires Disjoint(store.approvals, ApprovalRecords(ctx), ApprovalKey)
    requires UniqueKeys(ApprovalRecords(ctx), ApprovalKey)
    requires FindKey(store.contexts, ContextKey, ctx.id).None?
    ensures SaveUpsert(store, ctx, now) == Store(store.contexts + [RootRecord(ctx, now)],
                                                 store.steps + StepRecords(ctx),
                                                 store.approvals + ApprovalRecords(ctx))
  {
    UpsertAllReplacesEarlier(store.steps, [], StepRecords(ctx), StepKey);
    UpsertAllReplacesEarlier(store.approvals, [], ApprovalRecords(ctx), ApprovalKey);
    assert store.steps + [] == store.steps;
    assert store.approvals + [] == store.approvals;
  }


  /** Saving a context into a store that holds nothing of it, then loading it,
      gives back the same goal, cursor, log and ledger. */
  lemma SaveLoadRoundTrip(store: Store, ctx: Context, now: Timestamp)
    requires Fresh(store, ctx.id) && Persistable(ctx)
    ensures Load(Save(store, ctx, now), ctx.id) == Ok(Some(ctx))
  {
    SaveFresh(store, ctx, now);
    RecordFacts(store, ctx);
    LoadAppended(store, RootRecord(ctx, now), StepRecords(ctx), ApprovalRecords(ctx));
  }

  /** The prefix of a later state's records, taken up to an earlier state's length,
      is that earlier state's records with updated contents. */
  lemma EarlierRecords(ctx0: Context, ctx: Context)
    requires EarlierState(ctx0, ctx)
    ensures StepRecords(ctx0) == StepRecords(ctx)[..|ctx0.steps|]
    ensures KeyPrefix(ApprovalRecords(ctx0), ApprovalRecords(ctx), ApprovalKey)
    ensures Persistable(ctx) ==> Persistable(ctx0)
  {
  }

  /** As written, a second save of the same run changes none of the records the
      first save stored: the reloaded context has the first save's cursor and the
      first save's approval decisions, with only newer log and ledger entries added. */
  lemma ResaveKeepsFirstSave(store: Store, ctx0: Context, ctx: Context, t0: Timestamp, t1: Timestamp)
    requires Fresh(store, ctx.id) && Persistable(ctx) && EarlierState(ctx0, ctx)
    ensures Load(Save(Save(store, ctx0, t0), ctx, t1), ctx.id)
         == Ok(Some(ctx.(cursor := ctx0.cursor,
                         approvals := ctx0.approvals + ctx.approvals[|ctx0.approvals|..])))
  {
    var A0 := ApprovalRecords(ctx0);
    var A := ApprovalRecords(ctx);
    ResaveShape(store, ctx0, ctx, t0, t1);
    StepRecordFacts(ctx);
    MergedLedger(ctx0, ctx);
    LoadAppended(store, RootRecord(ctx0, t0), StepRecords(ctx), A0 + A[|A0|..]);
  }

  lemma StepRecordFacts(ctx: Context)
    requires Persistable(ctx)
    ensures SortedByIndex(StepRecords(ctx))
    ensures StepsFromRecords(StepRecords(ctx)) == ctx.steps
    ensures forall i :: 0 <= i < |StepRecords(ctx)| ==> StepOwner(StepRecords(ctx)[i]) == ctx.id
  {
  }

  /** The ledger read back after the as-written re-save: the first save's entries,
      then the later state's newer ones. */
  lemma MergedLedger(ctx0: Context, ctx: Context)
    requires EarlierState(ctx0, ctx)
    ensures var A0 := ApprovalRecords(ctx0);
            var A := ApprovalRecords(ctx);
            && (forall i :: 0 <= i < |A0 + A[|A0|..]| ==> ApprovalOwner((A0 + A[|A0|..])[i]) == ctx.id)
            && ApprovalsFromRecords(A0 + A[|A0|..]) == ctx0.approvals + ctx.approvals[|ctx0.approvals|..]
  {
  }

  /** The tables after an as-written save of `ctx0` followed by one of `ctx`. */
  lemma ResaveShape(store: Store, ctx0: Context, ctx: Context, t0: Timestamp, t1: Timestamp)
    requires Fresh(store, ctx.id) && Persistable(ctx) && EarlierState(ctx0, ctx)
    ensures Save(Save(store, ctx0, t0), ctx, t1)
         == Store(store.contexts + [RootRecord(ctx0, t0)], store.steps + StepRecords(ctx),
                  store.approvals + (ApprovalRecords(ctx0) + ApprovalRecords(ctx)[|ApprovalRecords(ctx0)|..]))
  {
    EarlierRecords(ctx0, ctx);
    SaveFresh(store, ctx0, t0);
    FirstKeyAfter(store.contexts, [RootRecord(ctx0, t0)], ContextKey, ctx.id);
    ResaveSteps(store, ctx0, ctx);
    ResaveApprovals(store, ctx0, ctx);
  }

  lemma ResaveSteps(store: Store, ctx0: Context, ctx: Context)
    requires Fresh(store, ctx.id) && Persistable(ctx) && EarlierState(ctx0, ctx)
    ensures InsertAllIfAbsent(store.steps + StepRecords(ctx0), StepKey, StepRecords(ctx))
         == store.steps + StepRecords(ctx)
  {
    EarlierRecords(ctx0, ctx);
    StepKeysDistinct(store, ctx);
    InsertAllPrefix(store.steps, StepRecords(ctx), |ctx0.steps|, StepKey);
  }

  lemma ResaveApprovals(store: Store, ctx0: Context, ctx: Context)
    requires Fresh(store, ctx.id) && Persistable(ctx) && EarlierState(ctx0, ctx)
    ensures InsertAllIfAbsent(store.approvals + ApprovalRecords(ctx0), ApprovalKey, ApprovalRecords(ctx))
         == store.approvals + (ApprovalRecords(ctx0) + ApprovalRecords(ctx)[|ApprovalRecords(ctx0)|..])
  {
    EarlierRecords(ctx0, ctx);
    ApprovalKeysDistinct(store, ctx);
    var A0 := ApprovalRecords(ctx0);
    var A := ApprovalRecords(ctx);
    InsertAllKeepsEarlier(store.approvals, A0, A, ApprovalKey);
    AppendAssoc(store.approvals, A0, A[|A0|..]);
  }

  /** With a true upsert, saving a later state over an earlier save of the same run
      and loading gives back exactly the later state. */
  lemma ResaveWithUpsertRoundTrip(store: Store, ctx0: Context, ctx: Context, t0: Timestamp, t1: Timestamp)
    requires Fresh(store, ctx.id) && Persistable(ctx) && EarlierState(ctx0, ctx)
    ensures Load(SaveUpsert(SaveUpsert(store, ctx0, t0), ctx, t1), ctx.id) == Ok(Some(ctx))
  {
    UpsertResaveShape(store, ctx0, ctx, t0, t1);
    StepRecordFacts(ctx);
    ApprovalRecordFacts(ctx);
    LoadAppended(store, RootRecord(ctx, t1), StepRecords(ctx), ApprovalRecords(ctx));
  }

  lemma ApprovalRecordFacts(ctx: Context)
    ensures ApprovalsFromRecords(ApprovalRecords(ctx)) == ctx.approvals
    ensures forall i :: 0 <= i < |ApprovalRecords(ctx)| ==> ApprovalOwner(ApprovalRecords(ctx)[i]) == ctx.id
  {
  }

  /** Upserting a run's root record over its first one replaces it in place. */
  lemma UpsertReplacesRoot(table: seq<ContextRecord>, ctx0: Context, ctx: Context, t0: Timestamp, t1: Timestamp)
    requires ctx0.id == ctx.id && forall i :: 0 <= i < |table| ==> table[i].id != ctx.id
    ensures Upsert(table + [RootRecord(ctx0, t0)], ContextKey, RootRecord(ctx, t1)) == table + [RootRecord(ctx, t1)]
  {
    FirstKeyAfter(table, [RootRecord(ctx0, t0)], ContextKey, ctx.id);
    ReplaceHead(table, [RootRecord(ctx0, t0)], RootRecord(ctx, t1));
    assert [RootRecord(ctx0, t0)][1..] == [];
    assert table + [RootRecord(ctx, t1)] + [] == table + [RootRecord(ctx, t1)];
  }

  /** The tables after a true-upsert save of `ctx0` followed by one of `ctx`. */
  lemma UpsertResaveShape(store: Store, ctx0: Context, ctx: Context, t0: Timestamp, t1: Timestamp)
    requires Fresh(store, ctx.id) && Persistable(ctx) && EarlierState(ctx0, ctx)
    ensures SaveUpsert(SaveUpsert(store, ctx0, t0), ctx, t1)
         == Store(store.contexts + [RootRecord(ctx, t1)], store.steps + StepRecords(ctx),
                  store.approvals + ApprovalRecords(ctx))
  {
    EarlierRecords(ctx0, ctx);
    SaveFresh(store, ctx0, t0);
    UpsertReplacesRoot(store.contexts, ctx0, ctx, t0, t1);
    StepKeysDistinct(store, ctx);
    UpsertAllReplacesEarlier(store.steps, StepRecords(ctx0), StepRecords(ctx), StepKey);
    ApprovalKeysDistinct(store, ctx);
    UpsertAllReplacesEarlier(store.approvals, ApprovalRecords(ctx0), ApprovalRecords(ctx), ApprovalKey);
  }

}
