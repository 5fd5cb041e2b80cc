/** What one gossip node remembers (nth_dao/gossip.py): the bounded deque and the set beside it, over every run of
    received and own messages. A handled packet enters both and pushes the deque's left end out of both; an own
    message enters the deque only and pushes its left end out of the deque only. */
module GossipDedup {
  import opened Prelude
  import opened Gossip

  /** A packet that arrives, with the verdict of the handler's other checks, or a message of the node's own. */
  datatype Event = Heard(m: Message, passes: bool) | Said(m: Message)

  function Next(cap: nat, st: NodeState, e: Event): NodeState
    requires cap > 0
  {
    match e
    case Heard(m, passes) => Receive(st, {}, cap, m, "", passes).0
    case Said(m) => Originate(st, cap, m)
  }

  function After(cap: nat, run: seq<Event>): NodeState
    requires cap > 0
  {
    if run == [] then NodeState([], {}, []) else Next(cap, After(cap, run[..|run| - 1]), run[|run| - 1])
  }

  predicate Handles(st: NodeState, e: Event) {
    e.Heard? && e.passes && e.m.id !in st.seenSet
  }

  lemma Append(cap: nat, run: seq<Event>, e: Event)
    requires cap > 0
    ensures After(cap, run + [e]) == Next(cap, After(cap, run), e)
  {
    assert (run + [e])[..|run|] == run;
  }

  // ---------------------------------------------------------------- when an id leaves the set

  /** A packet is handled on a full deque with this id at its left end. */
  predicate Discards(cap: nat, st: NodeState, e: Event, id: string) {
    Handles(st, e) && |st.seen| == cap && cap > 0 && st.seen[0] == id
  }

  lemma LeavesIff(cap: nat, st: NodeState, e: Event, id: string)
    requires cap > 0 && id in st.seenSet
    ensures id !in Next(cap, st, e).seenSet <==> Discards(cap, st, e, id)
  {
  }

  predicate DiscardsAt(cap: nat, run: seq<Event>, k: nat, id: string)
    requires cap > 0 && k < |run|
  {
    Discards(cap, After(cap, run[..k]), run[k], id)
  }

  /** An id in the set stays there up to some point of a run exactly when no step until then discards it. */
  lemma {:induction false} StaysIff(cap: nat, run: seq<Event>, i: nat, n: nat, id: string)
    requires cap > 0 && i <= n <= |run| && InSet(cap, run, i, id)
    ensures (forall k :: i <= k <= n ==> InSet(cap, run, k, id)) <==> (forall k :: i <= k < n ==> !DiscardsAt(cap, run, k, id))
  {
    if i < n {
      StaysIff(cap, run, i, n - 1, id);
      if InSet(cap, run, n - 1, id) { StaysOneMore(cap, run, n - 1, id); }
    }
  }

  predicate InSet(cap: nat, run: seq<Event>, k: nat, id: string)
    requires cap > 0 && k <= |run|
  {
    id in After(cap, run[..k]).seenSet
  }

  lemma StaysOneMore(cap: nat, run: seq<Event>, k: nat, id: string)
    requires cap > 0 && k < |run| && InSet(cap, run, k, id)
    ensures InSet(cap, run, k + 1, id) <==> !DiscardsAt(cap, run, k, id)
  {
    assert run[..k + 1] == run[..k] + [run[k]];
    Append(cap, run[..k], run[k]);
    LeavesIff(cap, After(cap, run[..k]), run[k], id);
  }

  // ---------------------------------------------------------------- the set in closed form

  /** One entry of the deque: the id, and whether it came with a handled packet. */
  datatype Entry = Entry(id: string, handled: bool)

  function Entries(cap: nat, run: seq<Event>): seq<Entry>
    requires cap > 0
  {
    if run == [] then []
    else
      var init, e := run[..|run| - 1], run[|run| - 1];
      if e.Said? || Handles(After(cap, init), e) then Entries(cap, init) + [Entry(e.m.id, e.Heard?)] else Entries(cap, init)
  }

  function Ids(entries: seq<Entry>): seq<string> {
    seq(|entries|, i requires 0 <= i < |entries| => entries[i].id)
  }

  lemma PushIsLastN(all: seq<string>, id: string, cap: nat)
    requires cap > 0
    ensures Push(LastN(cap, all), id, cap) == LastN(cap, all + [id])
  {
  }

  lemma IdsAppend(entries: seq<Entry>, e: Entry)
    ensures Ids(entries + [e]) == Ids(entries) + [e.id]
  {
  }

  /** Entry `t` came with a packet handled `cap` entries after this id. */
  predicate Evicts(cap: nat, all: seq<Entry>, t: nat, id: string) {
    cap <= t < |all| && all[t].handled && all[t - cap].id == id
  }

  /** Entry `j` brought the id into the set, and none since evicts it. */
  predicate Kept(cap: nat, all: seq<Entry>, id: string, j: nat) {
    j < |all| && all[j] == Entry(id, true) && forall t :: j < t < |all| ==> !Evicts(cap, all, t, id)
  }

  ghost predicate Remembered(cap: nat, all: seq<Entry>, id: string) {
    exists j: nat :: Kept(cap, all, id, j)
  }

  lemma KeptNext(cap: nat, all: seq<Entry>, e: Entry, id: string, j: nat)
    requires cap > 0 && j < |all|
    ensures Kept(cap, all + [e], id, j) <==> Kept(cap, all, id, j) && !Evicts(cap, all + [e], |all|, id)
  {
    var more := all + [e];
    forall t: nat | t < |all| ensures Evicts(cap, more, t, id) <==> Evicts(cap, all, t, id) {
      assert more[t] == all[t] && (cap <= t ==> more[t - cap] == all[t - cap]);
    }
  }

  /** What one more entry does to an id: its own is remembered, the one `cap` places back is forgotten. */
  lemma RememberedNext(cap: nat, all: seq<Entry>, e: Entry, id: string)
    requires cap > 0
    ensures Remembered(cap, all + [e], id) <==>
            (e == Entry(id, true) || (Remembered(cap, all, id) && !Evicts(cap, all + [e], |all|, id)))
  {
    var more := all + [e];
    if Remembered(cap, more, id) {
      var j: nat :| Kept(cap, more, id, j);
      if j < |all| { KeptNext(cap, all, e, id, j); }
    }
    if e == Entry(id, true) {
      assert Kept(cap, more, id, |all|);
    } else if Remembered(cap, all, id) && !Evicts(cap, more, |all|, id) {
      var j: nat :| Kept(cap, all, id, j);
      KeptNext(cap, all, e, id, j);
    }
  }

  /** The deque and the set are those of these entries. */
  ghost predicate Matches(cap: nat, st: NodeState, all: seq<Entry>) {
    st.seen == LastN(cap, Ids(all)) && forall id :: id in st.seenSet <==> Remembered(cap, all, id)
  }

  lemma MatchesNext(cap: nat, st: NodeState, all: seq<Entry>, e: Event)
    requires cap > 0 && Matches(cap, st, all) && (e.Said? || Handles(st, e))
    ensures Matches(cap, Next(cap, st, e), all + [Entry(e.m.id, e.Heard?)])
  {
    var entry, st' := Entry(e.m.id, e.Heard?), Next(cap, st, e);
    PushIsLastN(Ids(all), e.m.id, cap);
    IdsAppend(all, entry);
    assert |st.seen| == cap ==> st.seen[0] == Ids(all)[|all| - cap];
    forall id ensures id in st'.seenSet <==> Remembered(cap, all + [entry], id) { RememberedNext(cap, all, entry, id); }
  }

  /** After every run the deque is the last `cap` ids entered, and an id is in the set exactly when some handled packet
      brought it in and none since was handled `cap` entries after a copy of it. */
  lemma {:induction false} SeenSetIs(cap: nat, run: seq<Event>)
    requires cap > 0
    ensures Matches(cap, After(cap, run), Entries(cap, run))
  {
    if run == [] {
      assert forall id, j: nat :: !Kept(cap, [], id, j);
    } else {
      var init, e := run[..|run| - 1], run[|run| - 1];
      SeenSetIs(cap, init);
      if e.Said? || Handles(After(cap, init), e) { MatchesNext(cap, After(cap, init), Entries(cap, init), e); }
    }
  }

  /** An id that was entered once, by a handled packet, is forgotten exactly when the entry `cap` places later came
      with a handled packet too; if that one is an own message, it is never forgotten. */
  lemma ForgottenIff(cap: nat, run: seq<Event>, j: nat)
    requires cap > 0 && j < |Entries(cap, run)| && Entries(cap, run)[j].handled
    requires forall i :: 0 <= i < |Entries(cap, run)| && i != j ==> Entries(cap, run)[i].id != Entries(cap, run)[j].id
    ensures var all := Entries(cap, run);
            all[j].id !in After(cap, run).seenSet <==> j + cap < |all| && all[j + cap].handled
  {
    SeenSetIs(cap, run);
    RememberedOnce(cap, Entries(cap, run), j);
  }

  lemma RememberedOnce(cap: nat, all: seq<Entry>, j: nat)
    requires cap > 0 && j < |all| && all[j].handled && forall i :: 0 <= i < |all| && i != j ==> all[i].id != all[j].id
    ensures !Remembered(cap, all, all[j].id) <==> j + cap < |all| && all[j + cap].handled
  {
    var id := all[j].id;
    if j + cap < |all| && all[j + cap].handled {
      assert Evicts(cap, all, j + cap, id);
      forall i: nat ensures !Kept(cap, all, id, i) { }
    } else {
      assert Kept(cap, all, id, j);
    }
  }

  // ---------------------------------------------------------------- what is never forgotten

  /** An own message has an id that is not in the set. */
  predicate FreshId(st: NodeState, e: Event) {
    e.Said? ==> e.m.id !in st.seenSet
  }

  ghost predicate FreshRun(cap: nat, run: seq<Event>)
    requires cap > 0
  {
    forall k :: 0 <= k < |run| ==> FreshId(After(cap, run[..k]), run[k])
  }

  predicate Stranded(st: NodeState, id: string) {
    id in st.seenSet && id !in st.seen
  }

  ghost predicate Contained(st: NodeState) {
    forall id :: !Stranded(st, id)
  }

  /** An own message on a full deque whose left end is in the set and nowhere else in the deque. */
  predicate Strands(cap: nat, st: NodeState, e: Event) {
    e.Said? && |st.seen| == cap && cap > 0 && st.seen[0] in st.seenSet && st.seen[0] !in st.seen[1..]
  }

  lemma PushMembers(seen: seq<string>, id: string, cap: nat, x: string)
    requires cap > 0 && |seen| <= cap
    ensures x in Push(seen, id, cap) <==> x == id || x in (if |seen| < cap then seen else seen[1..])
  {
  }

  lemma TailMembers(seen: seq<string>, x: string)
    requires seen != []
    ensures x in seen <==> x == seen[0] || x in seen[1..]
  {
    assert seen == [seen[0]] + seen[1..];
  }

  /** A stranded id stays in the set for ever. */
  lemma StrandedStays(cap: nat, st: NodeState, e: Event, id: string)
    requires cap > 0 && |st.seen| <= cap && FreshId(st, e) && Stranded(st, id)
    ensures Stranded(Next(cap, st, e), id)
  {
    PushMembers(st.seen, e.m.id, cap, id);
    if st.seen != [] { TailMembers(st.seen, id); }
  }

  lemma StrandsNow(cap: nat, st: NodeState, e: Event)
    requires cap > 0 && |st.seen| <= cap && FreshId(st, e) && Strands(cap, st, e)
    ensures Stranded(Next(cap, st, e), st.seen[0])
  {
    PushMembers(st.seen, e.m.id, cap, st.seen[0]);
  }

  lemma ContainedNext(cap: nat, st: NodeState, e: Event)
    requires cap > 0 && |st.seen| <= cap && Contained(st) && !Strands(cap, st, e)
    ensures Contained(Next(cap, st, e))
  {
    forall id ensures !Stranded(Next(cap, st, e), id) {
      assert !Stranded(st, id);
      PushMembers(st.seen, e.m.id, cap, id);
      if st.seen != [] { TailMembers(st.seen, id); }
    }
  }

  lemma {:induction false} DequeFits(cap: nat, run: seq<Event>)
    requires cap > 0
    ensures |After(cap, run).seen| <= cap
  {
    if run != [] { DequeFits(cap, run[..|run| - 1]); }
  }

  predicate StrandsAt(cap: nat, run: seq<Event>, k: nat)
    requires cap > 0 && k < |run|
  {
    Strands(cap, After(cap, run[..k]), run[k])
  }

  lemma ContainedStepIff(cap: nat, st: NodeState, e: Event)
    requires cap > 0 && |st.seen| <= cap && FreshId(st, e)
    ensures Contained(Next(cap, st, e)) <==> Contained(st) && !Strands(cap, st, e)
  {
    if !Contained(st) {
      var id :| Stranded(st, id);
      StrandedStays(cap, st, e, id);
    } else if Strands(cap, st, e) {
      StrandsNow(cap, st, e);
    } else {
      ContainedNext(cap, st, e);
    }
  }

  ghost predicate ContainedAt(cap: nat, run: seq<Event>, k: nat)
    requires cap > 0 && k <= |run|
  {
    Contained(After(cap, run[..k]))
  }

  lemma ContainedOneMore(cap: nat, run: seq<Event>, k: nat)
    requires cap > 0 && k < |run| && FreshId(After(cap, run[..k]), run[k])
    ensures ContainedAt(cap, run, k + 1) <==> ContainedAt(cap, run, k) && !StrandsAt(cap, run, k)
  {
    DequeFits(cap, run[..k]);
    ContainedStepIff(cap, After(cap, run[..k]), run[k]);
    assert run[..k + 1] == run[..k] + [run[k]];
    Append(cap, run[..k], run[k]);
  }

  /** At every point of a run with new ids for own messages, everything in the set is in the deque exactly when no
      step so far stranded an id. */
  lemma {:induction false} ContainedIff(cap: nat, run: seq<Event>, n: nat)
    requires cap > 0 && FreshRun(cap, run) && n <= |run|
    ensures ContainedAt(cap, run, n) <==> forall k :: 0 <= k < n ==> !StrandsAt(cap, run, k)
  {
    if n > 0 {
      ContainedIff(cap, run, n - 1);
      ContainedOneMore(cap, run, n - 1);
    }
  }

  // ---------------------------------------------------------------- the set outgrows the deque

  function Plain(id: string): Message {
    Message(id, "", "", None, NoSig, true, Everyone)
  }

  /** The deque holds the node's own id only, and `n` handled ids are stranded. */
  predicate Outgrown(cap: nat, st: NodeState, n: nat) {
    && |st.seen| == cap && (forall i :: 0 <= i < cap ==> st.seen[i] == "own")
    && "own" !in st.seenSet && |st.seenSet| == n
  }

  predicate EndsOwn(seen: seq<string>, cap: nat, n: nat) {
    n <= |seen| <= cap && forall i :: |seen| - n <= i < |seen| ==> seen[i] == "own"
  }

  lemma PushOwn(seen: seq<string>, cap: nat, n: nat)
    requires EndsOwn(seen, cap, n) && n < cap
    ensures EndsOwn(Push(seen, "own", cap), cap, n + 1)
  {
  }

  /** Own messages push out whatever the deque held. */
  lemma {:induction false} SayFills(cap: nat, run: seq<Event>, n: nat) returns (more: seq<Event>)
    requires cap > 0 && n <= cap && "own" !in After(cap, run).seenSet && FreshRun(cap, run)
    ensures FreshRun(cap, more) && After(cap, more).seenSet == After(cap, run).seenSet && EndsOwn(After(cap, more).seen, cap, n)
  {
    if n == 0 {
      more := run;
      DequeFits(cap, run);
    } else {
      more := SayFills(cap, run, n - 1);
      PushOwn(After(cap, more).seen, cap, n - 1);
      FreshAppend(cap, more, Said(Plain("own")));
      more := more + [Said(Plain("own"))];
    }
  }

  lemma FreshAppend(cap: nat, run: seq<Event>, e: Event)
    requires cap > 0 && FreshRun(cap, run) && FreshId(After(cap, run), e)
    ensures FreshRun(cap, run + [e]) && After(cap, run + [e]) == Next(cap, After(cap, run), e)
  {
    var more := run + [e];
    Append(cap, run, e);
    forall k | 0 <= k < |more| ensures FreshId(After(cap, more[..k]), more[k]) {
      assert more[..k] == run[..k];
      if k == |run| { assert run[..k] == run; }
    }
  }

  /** An id longer than any in a finite set. */
  lemma NewId(ids: set<string>) returns (id: string)
    ensures id !in ids && id != "own"
  {
    var n := LongerThan(ids);
    id := seq(n + 4, _ => 'x');
    assert |id| == n + 4;
  }

  lemma {:induction false} LongerThan(ids: set<string>) returns (n: nat)
    ensures forall id :: id in ids ==> |id| <= n
    decreases |ids|
  {
    if ids == {} {
      n := 0;
    } else {
      var x :| x in ids;
      n := LongerThan(ids - {x});
      if |x| > n { n := |x|; }
      assert forall id :: id in ids ==> id == x || id in ids - {x};
    }
  }

  /** However small the deque, there are runs after which the set holds any number of ids, none of them in the deque. */
  lemma {:induction false} SetOutgrowsDeque(cap: nat, n: nat) returns (run: seq<Event>)
    requires cap > 0
    ensures FreshRun(cap, run) && Outgrown(cap, After(cap, run), n)
  {
    if n == 0 {
      run := SayFills(cap, [], cap);
    } else {
      run := SetOutgrowsDeque(cap, n - 1);
      var st := After(cap, run);
      var id := NewId(st.seenSet);
      var heard := Heard(Plain(id), true);
      FreshAppend(cap, run, heard);
      assert st.seenSet - {"own"} + {id} == st.seenSet + {id};
      run := SayFills(cap, run + [heard], cap);
    }
  }
}
