/** One poll that nobody interrupts (nth_dao/event_subscriptions.py): claiming, reading, storing and releasing, one step
    at a time, deliver and store what the whole call is said to. */
module Polls {
  import opened Prelude
  import opened GlobPatterns
  import opened Subscriptions

  /** `n` reads of this reader, and no other step, lead from one world to the other. */
  ghost predicate Reading(rules: Rules, w: World, w': World, id: string, n: nat)
    decreases n
  {
    if n == 0 then w' == w
    else Enabled(rules, w, Read(id)) && Reading(rules, After(rules, w, Read(id)), w', id, n - 1)
  }

  /** Claim, read until the loop ends, store, release. */
  ghost predicate Polled(rules: Rules, w: World, claimed: World, read: World, stored: World, w': World, id: string, n: nat) {
    && Enabled(rules, w, Claim(id)) && claimed == After(rules, w, Claim(id))
    && Reading(rules, claimed, read, id, n)
    && Enabled(rules, read, Store(id)) && stored == After(rules, read, Store(id))
    && Enabled(rules, stored, Release(id)) && w' == After(rules, stored, Release(id))
  }

  /** Between claim and store only the reader and what its callback has been given change. */
  predicate Frame(w: World, w': World, id: string) {
    && w'.stream == w.stream && w'.subs == w.subs && w'.terms == w.terms
    && id in w.readers && id in w'.readers && w'.readers == w.readers[id := w'.readers[id]]
    && id in w.received && id in w'.received && w'.received == w.received[id := w'.received[id]]
  }

  /** The poll so far, since the claim: nothing else changed, the cursor only moved forward, and the count is the number
      of events the callback got. */
  ghost predicate SoFar(rules: Rules, claimed: World, w: World, id: string) {
    && Inv(rules, w) && Frame(claimed, w, id)
    && (var r0, r := claimed.readers[id], w.readers[id];
        && r.from == r0.from && r.pattern == r0.pattern && !r.stored
        && Past(w.stream, r.from) <= Past(w.stream, r.last)
        && r.count <= rules.cap && |w.received[id]| == |claimed.received[id]| + r.count)
  }

  lemma ReadSoFar(rules: Rules, claimed: World, w: World, id: string)
    requires SoFar(rules, claimed, w, id) && Enabled(rules, w, Read(id))
    ensures SoFar(rules, claimed, After(rules, w, Read(id)), id)
    ensures After(rules, w, Read(id)).readers[id].pos == w.readers[id].pos + 1 <= |w.stream|
  {
    StepKeepsInv(rules, w, Read(id));
    assert SubOk(rules, w, id);
    PastAt(w.stream, w.readers[id].pos);
  }

  lemma {:induction false} ReadToEnd(rules: Rules, claimed: World, w: World, id: string) returns (w': World, n: nat)
    requires SoFar(rules, claimed, w, id)
    ensures Reading(rules, w, w', id, n) && SoFar(rules, claimed, w', id) && LoopEnds(rules, w', w'.readers[id])
    decreases if id in w.readers then |w.stream| - w.readers[id].pos else 0
  {
    assert SubOk(rules, w, id);
    if LoopEnds(rules, w, w.readers[id]) {
      w', n := w, 0;
    } else {
      ReadSoFar(rules, claimed, w, id);
      w', n := ReadToEnd(rules, claimed, After(rules, w, Read(id)), id);
      n := n + 1;
    }
  }

  lemma ClaimStarts(rules: Rules, w: World, id: string)
    requires Inv(rules, w) && id in w.subs && id !in w.readers
    ensures var claimed := After(rules, w, Claim(id)); SoFar(rules, claimed, claimed, id) && claimed.received == w.received
  {
    StepKeepsInv(rules, w, Claim(id));
    assert SubOk(rules, w, id);
  }

  /** What the callback got since the claim. */
  lemma GotSince(rules: Rules, claimed: World, w: World, id: string)
    requires SoFar(rules, claimed, w, id) && Inv(rules, claimed) && claimed.readers[id].last == claimed.readers[id].from
    ensures var r := w.readers[id];
            w.received[id] == claimed.received[id] + Matching(rules.inClass, r.pattern, w.stream, Past(w.stream, r.from), Past(w.stream, r.last))
  {
    assert SubOk(rules, claimed, id) && SubOk(rules, w, id);
    var t, r := w.terms[id], w.readers[id];
    MatchingSplit(rules.inClass, t.pattern, w.stream, Past(w.stream, t.start), Past(w.stream, r.from), Past(w.stream, r.last));
  }

  /** The loop has stopped: at the end of the stream everything due was delivered, otherwise the cap's worth. */
  lemma EndOfLoop(rules: Rules, stream: seq<Event>, t: Terms, r: Reader)
    requires UniqueIds(stream) && ReaderOk(rules, stream, t, r) && Past(stream, r.from) <= Past(stream, r.last) && r.count <= rules.cap
    requires r.pos >= |stream| || (r.started && r.count >= rules.cap)
    requires r.count == |Matching(rules.inClass, t.pattern, stream, Past(stream, r.from), Past(stream, r.last))|
    ensures var due := MatchingFrom(rules.inClass, t.pattern, stream, Past(stream, r.from));
            var got := Matching(rules.inClass, t.pattern, stream, Past(stream, r.from), Past(stream, r.last));
            && got == due[..Min(rules.cap, |due|)]
            && MatchingFrom(rules.inClass, t.pattern, stream, Past(stream, r.last)) == due[Min(rules.cap, |due|)..]
  {
    var i, j := Past(stream, r.from), Past(stream, r.last);
    MatchingSplit(rules.inClass, t.pattern, stream, i, j, |stream|);
    if !r.started {
      assert !Found(stream, r.from);
      PastMissing(stream, r.from);
    }
    if r.started && r.pos >= |stream| { MatchingSplit(rules.inClass, t.pattern, stream, j, r.pos, |stream|); }
  }

  lemma StoreEnds(rules: Rules, w: World, claimed: World, read: World, id: string)
    requires Inv(rules, w) && id in w.subs && id !in w.readers && claimed == After(rules, w, Claim(id))
    requires SoFar(rules, claimed, read, id) && LoopEnds(rules, read, read.readers[id])
    ensures Enabled(rules, read, Store(id))
    ensures var stored := After(rules, read, Store(id));
            && Enabled(rules, stored, Release(id))
            && After(rules, stored, Release(id)) ==
               w.(subs := w.subs[id := w.subs[id].(cursor := read.readers[id].last)], received := read.received)
  {
    var stored := After(rules, read, Store(id));
    var r := read.readers[id];
    assert w.subs[id].(cursor := r.from) == w.subs[id] && w.subs[id := w.subs[id]] == w.subs;
    assert stored.readers - {id} == w.readers;
  }

  /** From every world that runs can reach, an uninterrupted poll is possible, and it delivers the events due after the
      cursor, at most the cap, in order, moves the cursor so that exactly the rest stays due, and changes nothing else. */
  lemma PollAlone(rules: Rules, w: World, id: string) returns (claimed: World, read: World, stored: World, w': World, n: nat)
    requires Inv(rules, w) && id in w.subs && id !in w.readers
    ensures Polled(rules, w, claimed, read, stored, w', id, n)
    ensures id in w'.subs && id in w.received &&
            var s := w.subs[id];
            var due := MatchingFrom(rules.inClass, s.pattern, w.stream, Past(w.stream, s.cursor));
            && w' == w.(subs := w.subs[id := Sub(s.pattern, w'.subs[id].cursor)],
                        received := w.received[id := w.received[id] + due[..Min(rules.cap, |due|)]])
            && MatchingFrom(rules.inClass, s.pattern, w.stream, Past(w.stream, w'.subs[id].cursor)) == due[Min(rules.cap, |due|)..]
  {
    claimed := After(rules, w, Claim(id));
    ClaimStarts(rules, w, id);
    read, n := ReadToEnd(rules, claimed, claimed, id);
    StoreEnds(rules, w, claimed, read, id);
    stored := After(rules, read, Store(id));
    w' := After(rules, stored, Release(id));
    GotSince(rules, claimed, read, id);
    assert SubOk(rules, read, id);
    EndOfLoop(rules, read.stream, read.terms[id], read.readers[id]);
  }

  /** An emit makes its event the last of the stream, an unsubscribe ends the subscription but not a poll under way, and
      a subscription starts with nothing received. */
  lemma OutsideSteps(rules: Rules, w: World, e: Event, id: string, t: Terms)
    ensures Enabled(rules, w, Emit(e)) ==> After(rules, w, Emit(e)) == w.(stream := w.stream + [e])
    ensures var w' := After(rules, w, Unsubscribe(id));
            id !in w'.subs && w'.readers == w.readers && w'.received == w.received && forall k :: k in w.subs && k != id ==> k in w'.subs
    ensures Enabled(rules, w, Subscribe(id, t)) ==>
              var w' := After(rules, w, Subscribe(id, t));
              && id in w'.subs && w'.subs[id] == Sub(t.pattern, t.start) && id in w'.received && w'.received[id] == []
              && id in w'.terms && w'.terms[id] == t
  {
  }
}
