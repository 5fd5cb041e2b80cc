/** Correctors and readers that interleave (nth_dao/event_bus.py): each locked section and each append is
    one step, so a correction is checked, written and recorded at three different times. */
module CorrectionRaces {
  import opened Prelude
  import opened EventChain
  import opened Corrections

  /** What a process holds between two of its steps. A reader that scanned saw the first `n` events. */
  datatype Job = Checked(ask: Ask) | Emitted(original: string, id: string) | Scanned(n: nat)

  datatype State = State(events: seq<BusEvent>, index: Index, held: map<nat, Job>)

  datatype Act =
    | Other(e: BusEvent)
    | Check(p: nat, ask: Ask)
    | Abort(p: nat)
    | Write(p: nat, e: BusEvent)
    | Record(p: nat)
    | Scan(p: nat, n: nat)
    | Merge(p: nat)

  predicate Enabled(w: World, s: State, a: Act) {
    match a
    case Other(e) => !IsCorrection(e) && e.id !in Ids(s.events)
    case Check(p, ask) => p !in s.held && Refusal(w, s.events, ask).None?
    case Abort(p) => p in s.held && s.held[p].Checked?
    case Write(p, e) => p in s.held && s.held[p].Checked? && SignedBy(e, s.held[p].ask) && e.id !in Ids(s.events)
    case Record(p) => p in s.held && s.held[p].Emitted?
    case Scan(p, n) => p !in s.held && n <= |s.events|
    case Merge(p) => p in s.held && s.held[p].Scanned? && s.held[p].n <= |s.events|
  }

  function Recorded(index: Index, o: string, id: string): Index {
    var entry := At(index, o);
    index[o := if id in entry then entry else entry + [id]]
  }

  function Rebuilt(events: seq<BusEvent>): Index {
    map o | o in (set e | e in events && IsCorrection(e) && OriginalOf(e) != "" :: OriginalOf(e)) :: IdsFor(events, o)
  }

  function Apply(w: World, s: State, a: Act): State
    requires Enabled(w, s, a)
  {
    match a
    case Other(e) => s.(events := s.events + [e])
    case Check(p, ask) => s.(held := s.held[p := Checked(ask)])
    case Abort(p) => s.(held := s.held - {p})
    case Write(p, e) => s.(events := s.events + [e], held := s.held[p := Emitted(s.held[p].ask.original, e.id)])
    case Record(p) => s.(index := Recorded(s.index, s.held[p].original, s.held[p].id), held := s.held - {p})
    case Scan(p, n) => s.(held := s.held[p := Scanned(n)])
    case Merge(p) => s.(index := Merged(s.index, Rebuilt(s.events[..s.held[p].n])), held := s.held - {p})
  }

  // ---------------------------------------------------------------- the invariant

  ghost predicate StreamOk(w: World, s: State) {
    && NoDup(Ids(s.events))
    && AllGrounded(s.events)
    && forall p :: p in s.held && s.held[p].Checked? ==> Refusal(w, s.events, s.held[p].ask).None?
  }

  predicate Awaits(s: State, p: nat, o: string, id: string) {
    p in s.held && s.held[p] == Emitted(o, id)
  }

  /** Some process has written this correction and still has to record it. */
  ghost predicate Pending(s: State, o: string, id: string) {
    exists p :: Awaits(s, p, o, id)
  }

  predicate Lists(ids: seq<string>, id: string) {
    id in ids
  }

  /** The list for `o` has no duplicates and nothing foreign; what it lacks is about to be recorded. */
  ghost predicate ListOk(s: State, o: string) {
    && NoDup(At(s.index, o))
    && (forall id {:trigger Lists(At(s.index, o), id)} :: Lists(At(s.index, o), id) ==> Lists(IdsFor(s.events, o), id))
    && (forall id {:trigger Pending(s, o, id)} :: Pending(s, o, id) ==> Lists(IdsFor(s.events, o), id))
    && (forall id {:trigger Lists(IdsFor(s.events, o), id)} ::
          Lists(IdsFor(s.events, o), id) ==> Lists(At(s.index, o), id) || Pending(s, o, id))
  }

  ghost predicate Inv(w: World, s: State) {
    StreamOk(w, s) && forall o {:trigger ListOk(s, o)} :: ListOk(s, o)
  }

  lemma StepKeepsStream(w: World, s: State, a: Act)
    requires StreamOk(w, s) && Enabled(w, s, a)
    ensures StreamOk(w, Apply(w, s, a))
  {
    var s' := Apply(w, s, a);
    if a.Other? || a.Write? {
      IdsAppend(s.events, a.e);
      forall p | p in s'.held && s'.held[p].Checked? ensures Refusal(w, s'.events, s'.held[p].ask).None? {
        RefusalStable(w, s.events, [a.e], s.held[p].ask);
      }
      if a.Write? {
        PermittedIsGrounded(w, s.events, s.held[a.p].ask, a.e);
      } else {
        GroundedAppend(s.events, a.e);
      }
    }
  }

  /** The act writes this correction of `o`. */
  predicate Writes(s: State, a: Act, o: string, id: string) {
    a.Write? && a.p in s.held && s.held[a.p].Checked? && s.held[a.p].ask.original == o && a.e.id == id
  }

  lemma WritePending(w: World, s: State, a: Act, o: string, id: string)
    requires (a.Write? || a.Other?) && Enabled(w, s, a)
    ensures Pending(Apply(w, s, a), o, id) <==> Pending(s, o, id) || Writes(s, a, o, id)
  {
    var s' := Apply(w, s, a);
    if Pending(s', o, id) {
      var p :| Awaits(s', p, o, id);
      assert Awaits(s, p, o, id) || Writes(s, a, o, id);
    }
    if Pending(s, o, id) {
      var p :| Awaits(s, p, o, id);
      assert Awaits(s', p, o, id);
    }
    if Writes(s, a, o, id) { assert Awaits(s', a.p, o, id); }
  }

  lemma WriteIds(w: World, s: State, a: Act, o: string, id: string)
    requires (a.Write? || a.Other?) && Enabled(w, s, a)
    ensures Lists(IdsFor(Apply(w, s, a).events, o), id) <==> Lists(IdsFor(s.events, o), id) || Writes(s, a, o, id)
  {
    ScanAppend(s.events, a.e, o);
    if a.Write? { OriginalOfCorrection(a.e, s.held[a.p].ask); }
  }

  lemma WriteKeepsList(w: World, s: State, a: Act, o: string)
    requires (a.Write? || a.Other?) && Enabled(w, s, a) && ListOk(s, o)
    ensures ListOk(Apply(w, s, a), o)
  {
    var s' := Apply(w, s, a);
    forall id ensures && (Pending(s', o, id) <==> Pending(s, o, id) || Writes(s, a, o, id))
                      && (Lists(IdsFor(s'.events, o), id) <==> Lists(IdsFor(s.events, o), id) || Writes(s, a, o, id)) {
      WritePending(w, s, a, o, id);
      WriteIds(w, s, a, o, id);
    }
  }

  lemma RecordKeepsList(w: World, s: State, a: Act, o: string)
    requires a.Record? && Enabled(w, s, a) && ListOk(s, o)
    ensures ListOk(Apply(w, s, a), o)
  {
    var s' := Apply(w, s, a);
    var done := s.held[a.p];
    if done.original == o {
      assert Awaits(s, a.p, o, done.id);
      assert Pending(s, o, done.id);
    }
    var entry, entry' := At(s.index, o), At(s'.index, o);
    assert entry' == entry || (o == done.original && entry' == entry + [done.id] && done.id !in entry);
    assert forall id :: Lists(entry', id) <==> Lists(entry, id) || (done.original == o && id == done.id);
    forall id | Pending(s', o, id) ensures Lists(IdsFor(s'.events, o), id) {
      var p :| Awaits(s', p, o, id);
      assert Awaits(s, p, o, id);
      assert Pending(s, o, id);
    }
    forall id | Lists(IdsFor(s'.events, o), id) ensures Lists(entry', id) || Pending(s', o, id) {
      assert Lists(IdsFor(s.events, o), id);
      if Pending(s, o, id) {
        var p :| Awaits(s, p, o, id);
        assert p != a.p ==> Awaits(s', p, o, id);
      }
    }
  }

  /** A merge adds the scanned prefix's corrections after what is on disk. */
  lemma MergedAt(disk: Index, events: seq<BusEvent>, o: string)
    requires AllGrounded(events) && NoDup(At(disk, o))
    ensures At(Merged(disk, Rebuilt(events)), o) == Dedup(At(disk, o) + IdsFor(events, o))
  {
    if o !in Rebuilt(events) {
      assert IdsFor(events, o) == [] by {
        NoEmptyOriginal(events);
        ScanMembers(events, o);
        SomeMember(ScanFor(events, o));
        assert forall e :: e in events && Corrects(e, o) && o != "" ==> o in Rebuilt(events);
      }
      assert At(disk, o) + [] == At(disk, o);
      DedupOfNoDup(At(disk, o));
    }
  }

  lemma GroundedPrefix(events: seq<BusEvent>, n: nat)
    requires AllGrounded(events) && n <= |events|
    ensures AllGrounded(events[..n])
  {
    var pre := events[..n];
    forall j | 0 <= j < n && IsCorrection(pre[j]) ensures Grounded(pre, j) {
      assert Grounded(events, j);
      var i :| 0 <= i < j && Grounds(events, i, j);
      assert Grounds(pre, i, j);
    }
  }

  lemma MergeEffect(w: World, s: State, a: Act, o: string)
    requires a.Merge? && Enabled(w, s, a) && AllGrounded(s.events) && NoDup(At(s.index, o))
    ensures var seen := IdsFor(s.events[..s.held[a.p].n], o);
            && seen <= IdsFor(s.events, o)
            && At(Apply(w, s, a).index, o) == Dedup(At(s.index, o) + seen)
  {
    GroundedPrefix(s.events, s.held[a.p].n);
    ScanPrefix(s.events, s.held[a.p].n, o);
    MergedAt(s.index, s.events[..s.held[a.p].n], o);
  }

  /** What a merge makes of the list: nothing doubled, nothing foreign, nothing dropped. */
  lemma MergedList(entry: seq<string>, seen: seq<string>, ids: seq<string>)
    requires NoDup(entry) && seen <= ids && forall id {:trigger Lists(entry, id)} :: Lists(entry, id) ==> Lists(ids, id)
    ensures NoDup(Dedup(entry + seen))
    ensures forall id {:trigger Lists(Dedup(entry + seen), id)} :: Lists(Dedup(entry + seen), id) ==> Lists(ids, id)
    ensures forall id {:trigger Lists(entry, id)} :: Lists(entry, id) ==> Lists(Dedup(entry + seen), id)
  {
    DedupMerge(entry, seen);
    forall id | Lists(Dedup(entry + seen), id) ensures Lists(ids, id) {
      assert Lists(entry, id) || id in seen;
    }
  }

  ghost predicate SamePending(s: State, s': State, o: string) {
    forall id :: Pending(s, o, id) <==> Pending(s', o, id)
  }

  lemma PendingByAwaits(s: State, s': State, o: string)
    requires forall p, id :: Awaits(s, p, o, id) <==> Awaits(s', p, o, id)
    ensures SamePending(s, s', o)
  {
    forall id ensures Pending(s, o, id) <==> Pending(s', o, id) {
      if Pending(s, o, id) { var p :| Awaits(s, p, o, id); assert Awaits(s', p, o, id); }
      if Pending(s', o, id) { var p :| Awaits(s', p, o, id); assert Awaits(s, p, o, id); }
    }
  }

  /** The list after a merge lies between the list before and what the stream holds. */
  ghost predicate ListBetween(s: State, s': State, o: string) {
    && NoDup(At(s'.index, o))
    && (forall id {:trigger Lists(At(s'.index, o), id)} :: Lists(At(s'.index, o), id) ==> Lists(IdsFor(s.events, o), id))
    && (forall id {:trigger Lists(At(s.index, o), id)} :: Lists(At(s.index, o), id) ==> Lists(At(s'.index, o), id))
  }

  lemma ListOkGrows(s: State, s': State, o: string)
    requires ListOk(s, o) && s'.events == s.events && ListBetween(s, s', o) && SamePending(s, s', o)
    ensures ListOk(s', o)
  {
    forall id | Pending(s', o, id) ensures Lists(IdsFor(s'.events, o), id) { assert Pending(s, o, id); }
    forall id | Lists(IdsFor(s'.events, o), id) ensures Lists(At(s'.index, o), id) || Pending(s', o, id) {
      assert Lists(IdsFor(s.events, o), id);
      assert Lists(At(s.index, o), id) || Pending(s, o, id);
    }
  }

  lemma MergeListBetween(w: World, s: State, a: Act, o: string)
    requires a.Merge? && Enabled(w, s, a) && AllGrounded(s.events) && ListOk(s, o)
    ensures ListBetween(s, Apply(w, s, a), o)
  {
    MergeEffect(w, s, a, o);
    MergedList(At(s.index, o), IdsFor(s.events[..s.held[a.p].n], o), IdsFor(s.events, o));
  }

  lemma MergePending(w: World, s: State, a: Act, o: string)
    requires a.Merge? && Enabled(w, s, a)
    ensures SamePending(s, Apply(w, s, a), o) && Apply(w, s, a).events == s.events
  {
    PendingByAwaits(s, Apply(w, s, a), o);
  }

  lemma MergeKeepsList(w: World, s: State, a: Act, o: string)
    requires a.Merge? && Enabled(w, s, a) && AllGrounded(s.events) && ListOk(s, o)
    ensures ListOk(Apply(w, s, a), o)
  {
    MergeListBetween(w, s, a, o);
    MergePending(w, s, a, o);
    ListOkGrows(s, Apply(w, s, a), o);
  }

  lemma OtherActsKeepList(w: World, s: State, a: Act, o: string)
    requires (a.Check? || a.Abort? || a.Scan?) && Enabled(w, s, a) && ListOk(s, o)
    ensures ListOk(Apply(w, s, a), o)
  {
    PendingByAwaits(s, Apply(w, s, a), o);
  }

  /** Every step of every process keeps the authorship rules and the index's content. */
  lemma StepKeepsInv(w: World, s: State, a: Act)
    requires Inv(w, s) && Enabled(w, s, a)
    ensures Inv(w, Apply(w, s, a))
  {
    StepKeepsStream(w, s, a);
    forall o ensures ListOk(Apply(w, s, a), o) {
      assert ListOk(s, o);
      match a
      case Other(_) => WriteKeepsList(w, s, a, o);
      case Write(_, _) => WriteKeepsList(w, s, a, o);
      case Record(_) => RecordKeepsList(w, s, a, o);
      case Merge(_) => MergeKeepsList(w, s, a, o);
      case _ => OtherActsKeepList(w, s, a, o);
    }
  }

  // ---------------------------------------------------------------- undisturbed processes

  /** A corrector whom nobody disturbs: check, write and record are enabled one after the other, and leave one more event
      and its id at the end of the original's list. */
  lemma CorrectAlone(w: World, s: State, p: nat, ask: Ask, e: BusEvent)
    requires p !in s.held && Refusal(w, s.events, ask).None? && SignedBy(e, ask) && e.id !in Ids(s.events)
    ensures Enabled(w, s, Check(p, ask))
    ensures var checked := Apply(w, s, Check(p, ask));
            && Enabled(w, checked, Write(p, e))
            && var written := Apply(w, checked, Write(p, e));
               && Enabled(w, written, Record(p))
               && var s' := Apply(w, written, Record(p));
                  && s'.events == s.events + [e] && s'.held == s.held
                  && (e.id !in At(s.index, ask.original) ==> At(s'.index, ask.original) == At(s.index, ask.original) + [e.id])
                  && forall o :: o != ask.original ==> At(s'.index, o) == At(s.index, o)
  {
    var written := Apply(w, Apply(w, s, Check(p, ask)), Write(p, e));
    assert written.held - {p} == s.held;
  }

  lemma ScanWhole(w: World, s: State, p: nat) returns (scanned: State)
    requires p !in s.held
    ensures Enabled(w, s, Scan(p, |s.events|)) && scanned == Apply(w, s, Scan(p, |s.events|))
    ensures scanned == State(s.events, s.index, s.held[p := Scanned(|s.events|)]) && Enabled(w, scanned, Merge(p))
  {
    scanned := Apply(w, s, Scan(p, |s.events|));
  }

  lemma MergeWhole(w: World, s: State, p: nat, o: string) returns (s': State)
    requires AllGrounded(s.events) && NoDup(At(s.index, o)) && p in s.held && s.held[p] == Scanned(|s.events|)
    ensures Enabled(w, s, Merge(p)) && s' == Apply(w, s, Merge(p))
    ensures s'.events == s.events && s'.held == s.held - {p} && At(s'.index, o) == Dedup(At(s.index, o) + IdsFor(s.events, o))
  {
    assert s.events[..|s.events|] == s.events;
    MergeEffect(w, s, Merge(p), o);
    s' := Apply(w, s, Merge(p));
  }

  lemma TakenBack(held: map<nat, Job>, p: nat, job: Job)
    requires p !in held
    ensures held[p := job] - {p} == held
  {
  }

  /** A reader whom nobody disturbs: scanning the whole stream and merging are enabled, and leave for every original what
      was listed followed by what the scan found, each once. */
  lemma LookupAlone(w: World, s: State, p: nat, o: string) returns (scanned: State, s': State)
    requires AllGrounded(s.events) && NoDup(At(s.index, o)) && p !in s.held
    ensures Enabled(w, s, Scan(p, |s.events|)) && scanned == Apply(w, s, Scan(p, |s.events|))
    ensures Enabled(w, scanned, Merge(p)) && s' == Apply(w, scanned, Merge(p))
    ensures s'.events == s.events && s'.held == s.held && At(s'.index, o) == Dedup(At(s.index, o) + IdsFor(s.events, o))
  {
    scanned := ScanWhole(w, s, p);
    s' := MergeWhole(w, scanned, p, o);
    TakenBack(s.held, p, Scanned(|s.events|));
  }

  /** Other events only lengthen the stream, and giving up changes nothing but the claim. */
  lemma OtherEffects(w: World, s: State, a: Act)
    requires Enabled(w, s, a)
    ensures a.Other? ==> Apply(w, s, a) == State(s.events + [a.e], s.index, s.held)
    ensures a.Abort? ==> Apply(w, s, a) == State(s.events, s.index, s.held - {a.p})
  {
  }

  // ---------------------------------------------------------------- runs

  const START := State([], map[], map[])

  ghost predicate StepAt(w: World, states: seq<State>, acts: seq<Act>, i: nat)
    requires i < |acts| && i + 1 < |states|
  {
    Enabled(w, states[i], acts[i]) && states[i + 1] == Apply(w, states[i], acts[i])
  }

  ghost predicate Run(w: World, states: seq<State>, acts: seq<Act>) {
    && |states| == |acts| + 1
    && states[0] == START
    && forall i {:trigger StepAt(w, states, acts, i)} :: 0 <= i < |acts| ==> StepAt(w, states, acts, i)
  }

  lemma {:induction false} RunKeepsInv(w: World, states: seq<State>, acts: seq<Act>, n: nat)
    requires Run(w, states, acts) && n < |states|
    ensures Inv(w, states[n])
  {
    if n == 0 {
      forall o ensures ListOk(START, o) {
        forall id ensures !Pending(START, o, id) { }
      }
    } else {
      RunKeepsInv(w, states, acts, n - 1);
      assert StepAt(w, states, acts, n - 1);
      StepKeepsInv(w, states[n - 1], acts[n - 1]);
    }
  }

  /** In every reachable stream a correction refers to an earlier event that is not itself a correction,
      and carries that event's key when it has one. */
  lemma CorrectionsAreGrounded(w: World, states: seq<State>, acts: seq<Act>, n: nat, j: nat)
    requires Run(w, states, acts) && n < |states| && j < |states[n].events| && IsCorrection(states[n].events[j])
    ensures exists i :: 0 <= i < j && Grounds(states[n].events, i, j)
  {
    RunKeepsInv(w, states, acts, n);
    assert Grounded(states[n].events, j);
  }

  ghost predicate Settled(s: State, o: string) {
    forall id {:trigger Pending(s, o, id)} :: !Pending(s, o, id)
  }

  /** Once no writer of `o` is pending, the index lists exactly the corrections a scan finds, each once. */
  lemma SettledIndexIsPermutation(w: World, s: State, o: string)
    requires Inv(w, s) && Settled(s, o)
    ensures multiset(At(s.index, o)) == multiset(IdsFor(s.events, o))
  {
    assert ListOk(s, o);
    var a, b := At(s.index, o), IdsFor(s.events, o);
    ScanNoDup(s.events, o);
    NoDupMultiset(a);
    NoDupMultiset(b);
    forall id ensures id in a <==> id in b {
      assert Lists(a, id) ==> Lists(b, id);
      assert Lists(b, id) ==> Lists(a, id) || Pending(s, o, id);
    }
    assert Elements(a) == Elements(b);
  }

  // ---------------------------------------------------------------- order

  predicate Ordered(s: State, o: string) {
    At(s.index, o) <= IdsFor(s.events, o)
  }

  /** Every correction of the same event that comes earlier in the stream is already recorded. */
  predicate InTurn(s: State, p: nat)
    requires p in s.held && s.held[p].Emitted?
  {
    var done := s.held[p];
    var entry, ids := At(s.index, done.original), IdsFor(s.events, done.original);
    done.id in entry || (|entry| < |ids| && ids[|entry|] == done.id)
  }

  predicate ActsInTurn(s: State, a: Act, o: string) {
    a.Record? && a.p in s.held && s.held[a.p].Emitted? && s.held[a.p].original == o ==> InTurn(s, a.p)
  }

  lemma ListNoLonger(w: World, s: State, o: string)
    requires Inv(w, s)
    ensures |At(s.index, o)| <= |IdsFor(s.events, o)|
  {
    assert ListOk(s, o);
    var a, b := At(s.index, o), IdsFor(s.events, o);
    SetSizeDetectsDuplicates(a);
    SetSizeDetectsDuplicates(b);
    forall id | id in a ensures id in b { assert Lists(a, id); }
    SubsetSize(Elements(a), Elements(b));
  }

  /** Lists only grow at their ends, in the stream as in the index. */
  lemma ListsGrow(w: World, s: State, a: Act, o: string)
    requires Inv(w, s) && Enabled(w, s, a)
    ensures At(s.index, o) <= At(Apply(w, s, a).index, o)
    ensures IdsFor(s.events, o) <= IdsFor(Apply(w, s, a).events, o)
  {
    assert ListOk(s, o);
    if a.Other? || a.Write? { ScanAppend(s.events, a.e, o); }
    if a.Merge? {
      MergeEffect(w, s, a, o);
      DedupMerge(At(s.index, o), IdsFor(s.events[..s.held[a.p].n], o));
    }
  }

  /** A step keeps the list in stream order exactly when it does not record out of turn. */
  lemma OrderKeptIff(w: World, s: State, a: Act, o: string)
    requires Inv(w, s) && Enabled(w, s, a) && Ordered(s, o)
    ensures Ordered(Apply(w, s, a), o) <==> ActsInTurn(s, a, o)
  {
    ListsGrow(w, s, a, o);
    assert ListOk(s, o);
    if a.Merge? {
      MergeEffect(w, s, a, o);
      ScanNoDup(s.events, o);
      DedupPrefixes(At(s.index, o), IdsFor(s.events[..s.held[a.p].n], o), IdsFor(s.events, o));
    }
    if a.Record? && s.held[a.p].original == o {
      var entry, ids, id := At(s.index, o), IdsFor(s.events, o), s.held[a.p].id;
      var s' := Apply(w, s, a);
      assert At(s'.index, o) == if id in entry then entry else entry + [id];
      if InTurn(s, a.p) && id !in entry {
        assert ids[..|entry| + 1] == entry + [id];
      }
    }
  }

  /** A list out of stream order stays out of order for ever. */
  lemma DisorderStays(w: World, s: State, a: Act, o: string)
    requires Inv(w, s) && Enabled(w, s, a) && !Ordered(s, o)
    ensures !Ordered(Apply(w, s, a), o)
  {
    ListsGrow(w, s, a, o);
    ListNoLonger(w, s, o);
    var s' := Apply(w, s, a);
    PrefixOfPrefix(At(s.index, o), IdsFor(s.events, o), At(s'.index, o), IdsFor(s'.events, o));
  }

  lemma PrefixOfPrefix(entry: seq<string>, ids: seq<string>, entry': seq<string>, ids': seq<string>)
    requires entry <= entry' && ids <= ids' && |entry| <= |ids|
    ensures entry' <= ids' ==> entry <= ids
  {
    if entry' <= ids' {
      assert forall i :: 0 <= i < |entry| ==> entry[i] == entry'[i] == ids'[i] == ids[i];
    }
  }

  ghost predicate TurnsKept(states: seq<State>, acts: seq<Act>, o: string, n: nat)
    requires n <= |acts| && n <= |states|
  {
    forall i {:trigger acts[i]} :: 0 <= i < n ==> ActsInTurn(states[i], acts[i], o)
  }

  lemma {:induction false} OrderedIffTurnsKept(w: World, states: seq<State>, acts: seq<Act>, o: string, n: nat)
    requires Run(w, states, acts) && n < |states|
    ensures Ordered(states[n], o) <==> TurnsKept(states, acts, o, n)
  {
    if n > 0 {
      OrderedIffTurnsKept(w, states, acts, o, n - 1);
      RunKeepsInv(w, states, acts, n - 1);
      assert StepAt(w, states, acts, n - 1);
      if Ordered(states[n - 1], o) {
        OrderKeptIff(w, states[n - 1], acts[n - 1], o);
      } else {
        DisorderStays(w, states[n - 1], acts[n - 1], o);
      }
    }
  }

  /** At rest, the indexed lookup of `o` is the stream-order list exactly when every correction of `o` was
      recorded before any later one. */
  lemma LookupInStreamOrderIff(w: World, states: seq<State>, acts: seq<Act>, o: string, n: nat)
    requires Run(w, states, acts) && n < |states| && Settled(states[n], o)
    ensures At(states[n].index, o) == IdsFor(states[n].events, o) <==> TurnsKept(states, acts, o, n)
  {
    RunKeepsInv(w, states, acts, n);
    OrderedIffTurnsKept(w, states, acts, o, n);
    SettledIndexIsPermutation(w, states[n], o);
    var a, b := At(states[n].index, o), IdsFor(states[n].events, o);
    PermutationElements(a, b);
  }

  /** A corrector that is alone with its event records in turn, so sequential corrections keep the order. */
  lemma AloneIsInTurn(w: World, s: State, p: nat)
    requires Inv(w, s) && p in s.held && s.held[p].Emitted? && Ordered(s, s.held[p].original)
    requires forall q :: q in s.held && s.held[q].Emitted? && s.held[q].original == s.held[p].original ==> q == p
    ensures InTurn(s, p)
  {
    var o, id := s.held[p].original, s.held[p].id;
    assert ListOk(s, o);
    var entry, ids := At(s.index, o), IdsFor(s.events, o);
    assert Awaits(s, p, o, id);
    assert Pending(s, o, id);
    if id !in entry {
      assert Lists(ids, id);
      ScanNoDup(s.events, o);
      assert entry != ids;
      var next := ids[|entry|];
      assert Lists(ids, next) && !Lists(entry, next);
      assert Pending(s, o, next);
      var q :| Awaits(s, q, o, next);
    }
  }

  predicate Reaches(w: World, s: State, acts: seq<Act>, end: State)
    decreases |acts|
  {
    if acts == [] then s == end
    else Enabled(w, s, acts[0]) && Reaches(w, Apply(w, s, acts[0]), acts[1..], end)
  }

  /** From any state whose list for an event is exact, two permitted correctors
      of that event can leave it out of stream order. */
  lemma RaceReverses(w: World, s: State, p: nat, a: BusEvent, q: nat, b: BusEvent) returns (end: State)
    requires p != q && p in s.held && q in s.held && s.held[p].Checked? && s.held[q].Checked?
    requires s.held[p].ask.original == s.held[q].ask.original
    requires SignedBy(a, s.held[p].ask) && SignedBy(b, s.held[q].ask) && a.id != b.id
    requires a.id !in Ids(s.events) && b.id !in Ids(s.events)
    requires At(s.index, s.held[p].ask.original) == IdsFor(s.events, s.held[p].ask.original)
    ensures Reaches(w, s, [Write(p, a), Write(q, b), Record(q), Record(p)], end)
    ensures var o, known := s.held[p].ask.original, At(s.index, s.held[p].ask.original);
            At(end.index, o) == known + [b.id, a.id] && IdsFor(end.events, o) == known + [a.id, b.id]
  {
    var o := s.held[p].ask.original;
    BothListed(s.events, s.held[p].ask, a, s.held[q].ask, b);
    var s1 := Apply(w, s, Write(p, a));
    FreshStays(s.events, a, b.id);
    var s2 := Apply(w, s1, Write(q, b));
    assert Awaits(s2, p, o, a.id) && Awaits(s2, q, o, b.id);
    end := RecordTwice(w, s2, p, q, o, a.id, b.id);
    Prepend(w, s1, Write(q, b), [Record(q), Record(p)], end);
    Prepend(w, s, Write(p, a), [Write(q, b), Record(q), Record(p)], end);
  }

  lemma FreshStays(events: seq<BusEvent>, a: BusEvent, id: string)
    requires id !in Ids(events) && id != a.id
    ensures id !in Ids(events + [a])
  {
    assert Ids(events + [a]) == Ids(events) + [a.id];
  }

  lemma BothListed(events: seq<BusEvent>, x: Ask, a: BusEvent, y: Ask, b: BusEvent)
    requires x.original == y.original && SignedBy(a, x) && SignedBy(b, y)
    requires a.id !in Ids(events) && b.id !in Ids(events)
    ensures IdsFor(events + [a] + [b], x.original) == IdsFor(events, x.original) + [a.id, b.id]
    ensures a.id !in IdsFor(events, x.original) && b.id !in IdsFor(events, x.original)
  {
    OriginalOfCorrection(a, x);
    OriginalOfCorrection(b, y);
    ScanAppend(events, a, x.original);
    ScanAppend(events + [a], b, x.original);
    NotListed(events, x.original, a.id);
    NotListed(events, x.original, b.id);
  }

  lemma RecordTwice(w: World, s: State, p: nat, q: nat, o: string, x: string, y: string) returns (end: State)
    requires p != q && Awaits(s, p, o, x) && Awaits(s, q, o, y) && x != y && x !in At(s.index, o) && y !in At(s.index, o)
    ensures Reaches(w, s, [Record(q), Record(p)], end)
    ensures At(end.index, o) == At(s.index, o) + [y, x] && end.events == s.events
  {
    var s1 := Apply(w, s, Record(q));
    end := Apply(w, s1, Record(p));
    Prepend(w, s1, Record(p), [], end);
    Prepend(w, s, Record(q), [Record(p)], end);
  }

  lemma Prepend(w: World, s: State, a: Act, rest: seq<Act>, end: State)
    requires Enabled(w, s, a) && Reaches(w, Apply(w, s, a), rest, end)
    ensures Reaches(w, s, [a] + rest, end)
  {
    assert ([a] + rest)[1..] == rest;
  }
}
