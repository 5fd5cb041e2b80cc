/** Where the router's answers come from (nth_dao/action_routing.py), in every run of the routers of a workspace. */
module ActionAnswers {
  import opened Prelude
  import opened ActionRouting

  // ---------------------------------------------------------------- calls of a run

  ghost predicate Cold(w: Workspace) {
    forall id :: id in w.nodes ==> w.nodes[id].cache == []
  }

  ghost predicate IsRun(horizon: real, ws: seq<Workspace>, calls: seq<Call>) {
    WorkspaceRun(horizon, ws, calls) && Cold(ws[0])
  }

  lemma CallOf(horizon: real, ws: seq<Workspace>, calls: seq<Call>, i: nat)
    requires WorkspaceRun(horizon, ws, calls) && i < |calls|
    ensures Handles(horizon, ws[i], calls[i].id, calls[i].d, calls[i].answer, calls[i].ran, ws[i + 1])
  {
    assert CallAt(horizon, ws, calls, i);
  }

  predicate AdmittedCall(horizon: real, ws: seq<Workspace>, calls: seq<Call>, i: nat)
    requires i < |calls| && i < |ws|
  {
    Decision(horizon, ws[i].ledger, calls[i].d).Some?
  }

  /** Call `i` at this router was admitted under this key. */
  predicate Uses(horizon: real, ws: seq<Workspace>, calls: seq<Call>, i: nat, id: nat, key: Key)
    requires i < |calls| && i < |ws|
  {
    AdmittedCall(horizon, ws, calls, i) && calls[i].id == id && KeyOf(calls[i].d.q) == key
  }

  /** Nothing was cached for it, so its answer is the handler's own. */
  ghost predicate Answered(horizon: real, ws: seq<Workspace>, calls: seq<Call>, i: nat, id: nat, key: Key, answer: Response)
    requires i < |calls| && i < |ws|
  {
    && Uses(horizon, ws, calls, i, id, key) && calls[i].answer == answer
    && id in ws[i].nodes && Lookup(ws[i].nodes[id].cache, key).None?
    && Answers(ws[i].nodes[id].handlers, calls[i].d.q, answer)
  }

  ghost predicate AnsweredBefore(horizon: real, ws: seq<Workspace>, calls: seq<Call>, n: nat, id: nat, key: Key, answer: Response)
    requires n <= |calls| && n < |ws|
  {
    exists j :: 0 <= j < n && Answered(horizon, ws, calls, j, id, key, answer)
  }

  // ---------------------------------------------------------------- cached answers

  lemma {:induction false} LookupFinds(cache: seq<Cached>, key: Key)
    requires Lookup(cache, key).Some?
    ensures Cached(key, Lookup(cache, key).value) in cache
  {
    if cache[|cache| - 1].key != key { LookupFinds(cache[..|cache| - 1], key); }
  }

  lemma {:induction false} WithoutMembers(cache: seq<Cached>, key: Key, c: Cached)
    requires c in Without(cache, key)
    ensures c in cache
  {
    if cache != [] && c in Without(cache[..|cache| - 1], key) { WithoutMembers(cache[..|cache| - 1], key, c); }
  }

  lemma PutMembers(cache: seq<Cached>, key: Key, answer: Response, max: nat, c: Cached)
    requires c in Put(cache, key, answer, max)
    ensures c == Cached(key, answer) || c in cache
  {
    if c != Cached(key, answer) { WithoutMembers(cache, key, c); }
  }

  ghost predicate Holds(w: Workspace, id: nat, c: Cached) {
    id in w.nodes && c in w.nodes[id].cache
  }

  /** Everything cached was a handler's own answer to an earlier call under that key at that router. */
  ghost predicate Sourced(horizon: real, ws: seq<Workspace>, calls: seq<Call>, n: nat)
    requires n <= |calls| && n < |ws|
  {
    forall id, c :: Holds(ws[n], id, c) ==> AnsweredBefore(horizon, ws, calls, n, id, c.key, c.response)
  }

  lemma CallIsSourced(horizon: real, ws: seq<Workspace>, calls: seq<Call>, n: nat)
    requires IsRun(horizon, ws, calls) && n < |calls| && Sourced(horizon, ws, calls, n) && AdmittedCall(horizon, ws, calls, n)
    ensures AnsweredBefore(horizon, ws, calls, n + 1, calls[n].id, KeyOf(calls[n].d.q), calls[n].answer)
  {
    CallOf(horizon, ws, calls, n);
    var id, key := calls[n].id, KeyOf(calls[n].d.q);
    var cache := ws[n].nodes[id].cache;
    if Lookup(cache, key).Some? {
      LookupFinds(cache, key);
      assert Holds(ws[n], id, Cached(key, calls[n].answer));
      assert AnsweredBefore(horizon, ws, calls, n, id, key, calls[n].answer);
    } else {
      assert Answered(horizon, ws, calls, n, id, key, calls[n].answer);
    }
  }

  lemma SourcedNext(horizon: real, ws: seq<Workspace>, calls: seq<Call>, n: nat)
    requires IsRun(horizon, ws, calls) && n < |calls| && Sourced(horizon, ws, calls, n)
    ensures Sourced(horizon, ws, calls, n + 1)
  {
    CallOf(horizon, ws, calls, n);
    if AdmittedCall(horizon, ws, calls, n) { CallIsSourced(horizon, ws, calls, n); }
    var after, next := ws[n + 1], n + 1;
    forall id, c | Holds(after, id, c)
      ensures AnsweredBefore(horizon, ws, calls, next, id, c.key, c.response)
    {
      if AdmittedCall(horizon, ws, calls, n) && id == calls[n].id {
        PutMembers(ws[n].nodes[id].cache, KeyOf(calls[n].d.q), calls[n].answer, calls[n].d.c.maxDedup, c);
      }
      if Holds(ws[n], id, c) {
        assert AnsweredBefore(horizon, ws, calls, n, id, c.key, c.response);
      }
    }
  }

  lemma {:induction false} RunIsSourced(horizon: real, ws: seq<Workspace>, calls: seq<Call>, n: nat)
    requires IsRun(horizon, ws, calls) && n <= |calls|
    ensures Sourced(horizon, ws, calls, n)
  {
    if n > 0 {
      RunIsSourced(horizon, ws, calls, n - 1);
      SourcedNext(horizon, ws, calls, n - 1);
    }
  }

  /** Every answer to an admitted call is what some call under the same key at the same router, this one or an earlier
      one, got from its handler; a completed answer is that handler's value. */
  lemma AnswersAreHandlers(horizon: real, ws: seq<Workspace>, calls: seq<Call>, i: nat) returns (j: nat)
    requires IsRun(horizon, ws, calls) && i < |calls| && AdmittedCall(horizon, ws, calls, i)
    ensures j <= i && Answered(horizon, ws, calls, j, calls[i].id, KeyOf(calls[i].d.q), calls[i].answer)
    ensures calls[i].answer.status == Completed ==>
              var q, handlers := calls[j].d.q, ws[j].nodes[calls[i].id].handlers;
              calls[j].ran && q.action in handlers && handlers[q.action](q) == Ok(calls[i].answer.text)
  {
    RunIsSourced(horizon, ws, calls, i);
    CallIsSourced(horizon, ws, calls, i);
    j :| 0 <= j < i + 1 && Answered(horizon, ws, calls, j, calls[i].id, KeyOf(calls[i].d.q), calls[i].answer);
    CallOf(horizon, ws, calls, j);
  }

  // ---------------------------------------------------------------- repeats

  /** The calls admitted at a router before call `n`, by their place in the run. */
  ghost function Served(horizon: real, ws: seq<Workspace>, calls: seq<Call>, id: nat, n: nat): seq<nat>
    requires n <= |calls| && n < |ws|
  {
    if n == 0 then []
    else
      var before := Served(horizon, ws, calls, id, n - 1);
      if calls[n - 1].id == id && AdmittedCall(horizon, ws, calls, n - 1) then before + [n - 1] else before
  }

  predicate Within(served: seq<nat>, n: nat) {
    forall x :: 0 <= x < |served| ==> served[x] < n
  }

  predicate ServedAt(horizon: real, ws: seq<Workspace>, calls: seq<Call>, id: nat, j: nat) {
    j < |calls| && j < |ws| && calls[j].id == id && AdmittedCall(horizon, ws, calls, j)
  }

  /** These are the router's admitted calls before `n`. */
  ghost predicate ServedAre(horizon: real, ws: seq<Workspace>, calls: seq<Call>, id: nat, n: nat, served: seq<nat>) {
    && Within(served, n)
    && (forall x :: 0 <= x < |served| ==> ServedAt(horizon, ws, calls, id, served[x]))
    && forall j: nat :: j < n && ServedAt(horizon, ws, calls, id, j) ==> j in served
  }

  lemma ServedMore(horizon: real, ws: seq<Workspace>, calls: seq<Call>, id: nat, n: nat, before: seq<nat>)
    requires ServedAre(horizon, ws, calls, id, n, before)
    ensures ServedAre(horizon, ws, calls, id, n + 1, if ServedAt(horizon, ws, calls, id, n) then before + [n] else before)
  {
  }

  lemma {:induction false} ServedWithin(horizon: real, ws: seq<Workspace>, calls: seq<Call>, id: nat, n: nat)
    requires n <= |calls| && n < |ws|
    ensures ServedAre(horizon, ws, calls, id, n, Served(horizon, ws, calls, id, n))
  {
    if n > 0 {
      ServedWithin(horizon, ws, calls, id, n - 1);
      ServedMore(horizon, ws, calls, id, n - 1, Served(horizon, ws, calls, id, n - 1));
    }
  }

  function KeysAt(calls: seq<Call>, served: seq<nat>): seq<Key>
    requires Within(served, |calls|)
  {
    seq(|served|, x requires 0 <= x < |served| => KeyOf(calls[served[x]].d.q))
  }

  function AnswersAt(calls: seq<Call>, served: seq<nat>): seq<Response>
    requires Within(served, |calls|)
  {
    seq(|served|, x requires 0 <= x < |served| => calls[served[x]].answer)
  }

  /** The router's cache is what its own calls so far leave. */
  ghost predicate CacheIs(horizon: real, ws: seq<Workspace>, calls: seq<Call>, id: nat, max: nat, n: nat)
    requires n <= |calls| && n < |ws|
  {
    var served := Served(horizon, ws, calls, id, n);
    && Within(served, |calls|) && id in ws[n].nodes
    && ws[n].nodes[id].cache == CacheAfter(KeysAt(calls, served), AnswersAt(calls, served), max)
  }

  lemma SnocAt(calls: seq<Call>, served: seq<nat>, j: nat)
    requires Within(served, |calls|) && j < |calls|
    ensures KeysAt(calls, served + [j]) == KeysAt(calls, served) + [KeyOf(calls[j].d.q)]
    ensures AnswersAt(calls, served + [j]) == AnswersAt(calls, served) + [calls[j].answer]
  {
  }

  lemma CacheIsNext(horizon: real, ws: seq<Workspace>, calls: seq<Call>, id: nat, max: nat, n: nat)
    requires WorkspaceRun(horizon, ws, calls) && n < |calls| && CacheIs(horizon, ws, calls, id, max, n)
    requires calls[n].id == id ==> calls[n].d.c.maxDedup == max
    ensures CacheIs(horizon, ws, calls, id, max, n + 1)
  {
    CallOf(horizon, ws, calls, n);
    var served := Served(horizon, ws, calls, id, n);
    if calls[n].id == id && AdmittedCall(horizon, ws, calls, n) {
      SnocAt(calls, served, n);
      CacheNext(KeysAt(calls, served), AnswersAt(calls, served), KeyOf(calls[n].d.q), calls[n].answer, max);
    }
  }

  lemma {:induction false} RunCacheIs(horizon: real, ws: seq<Workspace>, calls: seq<Call>, id: nat, max: nat, n: nat)
    requires IsRun(horizon, ws, calls) && n <= |calls| && id in ws[0].nodes
    requires forall i :: 0 <= i < |calls| && calls[i].id == id ==> calls[i].d.c.maxDedup == max
    ensures CacheIs(horizon, ws, calls, id, max, n)
  {
    if n > 0 {
      RunCacheIs(horizon, ws, calls, id, max, n - 1);
      CacheIsNext(horizon, ws, calls, id, max, n - 1);
    }
  }

  /** What is cached for a key is the answer to its latest use. */
  lemma {:induction false} LookupIsLatest(uses: seq<Key>, answers: seq<Response>, max: nat, key: Key) returns (x: nat)
    requires |uses| == |answers| && Lookup(CacheAfter(uses, answers, max), key).Some?
    ensures x < |uses| && uses[x] == key && answers[x] == Lookup(CacheAfter(uses, answers, max), key).value
    ensures forall y :: x < y < |uses| ==> uses[y] != key
  {
    var n := |uses| - 1;
    var before := CacheAfter(uses[..n], answers[..n], max);
    if uses[n] == key {
      x := n;
      LatestIsLast(before, key, answers[n], max);
    } else {
      OthersKept(before, uses[n], answers[n], max, key);
      x := LookupIsLatest(uses[..n], answers[..n], max, key);
    }
  }

  lemma LatestIsLast(cache: seq<Cached>, key: Key, answer: Response, max: nat)
    requires Lookup(Put(cache, key, answer, max), key).Some?
    ensures Lookup(Put(cache, key, answer, max), key) == Some(answer)
  {
    var grown := Without(cache, key) + [Cached(key, answer)];
    var kept := LastN(max, grown);
    assert kept != [] && kept[|kept| - 1] == grown[|grown| - 1];
  }

  lemma {:induction false} LookupSuffix(a: seq<Cached>, b: seq<Cached>, key: Key)
    requires Lookup(b, key).Some?
    ensures Lookup(a + b, key) == Lookup(b, key)
  {
    if b[|b| - 1].key == key {
      assert (a + b)[|a + b| - 1] == b[|b| - 1];
    } else {
      LookupSuffix(a, b[..|b| - 1], key);
      assert (a + b)[..|a + b| - 1] == a + b[..|b| - 1];
    }
  }

  lemma {:induction false} LookupWithout(cache: seq<Cached>, gone: Key, key: Key)
    requires gone != key
    ensures Lookup(Without(cache, gone), key) == Lookup(cache, key)
  {
    if cache != [] {
      var init, last := cache[..|cache| - 1], cache[|cache| - 1];
      LookupWithout(init, gone, key);
      if last.key == gone {
        assert Without(cache, gone) == Without(init, gone) + [] == Without(init, gone);
      } else {
        assert (Without(init, gone) + [last])[..|Without(init, gone)|] == Without(init, gone);
      }
    }
  }

  lemma OthersKept(cache: seq<Cached>, used: Key, answer: Response, max: nat, key: Key)
    requires used != key && Lookup(Put(cache, used, answer, max), key).Some?
    ensures Lookup(cache, key) == Lookup(Put(cache, used, answer, max), key)
  {
    var grown := Without(cache, used) + [Cached(used, answer)];
    var kept := LastN(max, grown);
    LookupSuffix(grown[..|grown| - |kept|], kept, key);
    assert grown == grown[..|grown| - |kept|] + kept;
    assert grown[..|grown| - 1] == Without(cache, used);
    LookupWithout(cache, used, key);
  }

  /** An admitted call is answered from the cache exactly while its key is among the `max` most recently used distinct
      keys of that router; it then gets the answer of the latest call under that key and runs no handler. */
  lemma RepeatsGetSameAnswer(horizon: real, ws: seq<Workspace>, calls: seq<Call>, max: nat, i: nat) returns (j: nat)
    requires IsRun(horizon, ws, calls) && i < |calls| && AdmittedCall(horizon, ws, calls, i) && max > 0 && calls[i].id in ws[0].nodes
    requires forall k :: 0 <= k < |calls| && calls[k].id == calls[i].id ==> calls[k].d.c.maxDedup == max
    ensures var id, key := calls[i].id, KeyOf(calls[i].d.q);
            var served := Served(horizon, ws, calls, id, i);
            && Within(served, |calls|)
            && (key !in LastN(max, Recency(KeysAt(calls, served))) ==> j == i)
            && (key in LastN(max, Recency(KeysAt(calls, served))) ==>
                  && j < i && Uses(horizon, ws, calls, j, id, key) && calls[i].answer == calls[j].answer && !calls[i].ran
                  && forall k :: j < k < i ==> !Uses(horizon, ws, calls, k, id, key))
            && (j == i ==> Answered(horizon, ws, calls, i, id, key, calls[i].answer))
  {
    var id, key := calls[i].id, KeyOf(calls[i].d.q);
    var served := Served(horizon, ws, calls, id, i);
    RunCacheIs(horizon, ws, calls, id, max, i);
    CallOf(horizon, ws, calls, i);
    var uses, answers := KeysAt(calls, served), AnswersAt(calls, served);
    CacheIsMostRecent(uses, answers, max);
    LookupMembers(CacheAfter(uses, answers, max), key);
    j := i;
    if Lookup(CacheAfter(uses, answers, max), key).Some? {
      var x := LookupIsLatest(uses, answers, max, key);
      j := served[x];
      LatestUse(horizon, ws, calls, id, i, key, x);
    }
  }

  lemma LatestUse(horizon: real, ws: seq<Workspace>, calls: seq<Call>, id: nat, n: nat, key: Key, x: nat)
    requires n <= |calls| && n < |ws| && Within(Served(horizon, ws, calls, id, n), |calls|)
    requires x < |Served(horizon, ws, calls, id, n)| && KeysAt(calls, Served(horizon, ws, calls, id, n))[x] == key
    requires forall y :: x < y < |Served(horizon, ws, calls, id, n)| ==> KeysAt(calls, Served(horizon, ws, calls, id, n))[y] != key
    ensures var j := Served(horizon, ws, calls, id, n)[x];
            j < n && Uses(horizon, ws, calls, j, id, key) && forall k :: j < k < n ==> !Uses(horizon, ws, calls, k, id, key)
  {
    var served := Served(horizon, ws, calls, id, n);
    ServedWithin(horizon, ws, calls, id, n);
    ServedOrder(horizon, ws, calls, id, n);
    forall k | served[x] < k < n ensures !Uses(horizon, ws, calls, k, id, key) {
      if calls[k].id == id && AdmittedCall(horizon, ws, calls, k) {
        assert ServedAt(horizon, ws, calls, id, k);
        var y :| 0 <= y < |served| && served[y] == k;
        assert KeysAt(calls, served)[y] == KeyOf(calls[k].d.q);
      }
    }
  }

  lemma {:induction false} ServedOrder(horizon: real, ws: seq<Workspace>, calls: seq<Call>, id: nat, n: nat)
    requires n <= |calls| && n < |ws|
    ensures Ascending(Served(horizon, ws, calls, id, n))
  {
    if n > 0 {
      ServedOrder(horizon, ws, calls, id, n - 1);
      ServedWithin(horizon, ws, calls, id, n - 1);
      var before := Served(horizon, ws, calls, id, n - 1);
      AscendingSnoc(before, n - 1);
    }
  }

  predicate Ascending(s: seq<nat>) {
    forall x, y :: 0 <= x < y < |s| ==> s[x] < s[y]
  }

  lemma AscendingSnoc(s: seq<nat>, n: nat)
    requires Within(s, n) && Ascending(s)
    ensures Ascending(s + [n])
  {
  }
}
