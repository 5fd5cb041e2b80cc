/** What the stream audit notices (nth_dao/event_bus.py, `verify_chain`): every change of a hashed field, and which
    change of a signature. */
module EventTampering {
  import opened Prelude
  import opened CanonicalJson
  import opened CanonicalEncoding
  import opened EventChain

  // ---------------------------------------------------------------- one event of a chain

  lemma LinkHash(w: World, events: seq<BusEvent>, i: nat)
    requires Chained(w, events) && i < |events|
    ensures HashMatches(events[i]) && events[i].prev == Head(events[..i]) && events[i].seqNo == i + 1
  {
    assert LinkOk(w, events, i);
  }

  /** An event of an accepted chain replaced by one that differs in a hashed field: with its hash kept the chain is
      refused, and with another hash too, unless it was the last. */
  lemma ChangedEvent(w: World, events: seq<BusEvent>, i: nat, e: BusEvent)
    requires Chained(w, events) && i < |events| && !SameEvent(e, events[i])
    ensures e.hash == events[i].hash || i + 1 < |events| ==> !Chained(w, events[i := e])
  {
    var changed := events[i := e];
    LinkHash(w, events, i);
    if i + 1 < |events| {
      LinkHash(w, events, i + 1);
      assert changed[i + 1] == events[i + 1] && Head(events[..i + 1]) == events[i].hash && Head(changed[..i + 1]) == e.hash;
    }
    if Chained(w, changed) {
      LinkHash(w, changed, i);
      HashBinds(e, events[i]);
      if i + 1 < |events| { LinkHash(w, changed, i + 1); }
    }
  }

  /** The last event can be replaced by any other that is hashed over its place and whose signature, if any, is not
      invalid: nothing follows it that would fix its hash. */
  lemma LastEventOpen(w: World, events: seq<BusEvent>, e: BusEvent)
    requires Chained(w, events) && events != []
    ensures var n := |events| - 1;
            Chained(w, events[n := e]) <==>
            e.seqNo == events[n].seqNo && e.prev == events[n].prev && HashMatches(e) && Verify(w, e) != Invalid
  {
    var n := |events| - 1;
    LinkHash(w, events, n);
    assert events == events[..n] + [events[n]] && events[n := e] == events[..n] + [e];
    ChainedAppend(w, events[..n], events[n]);
    ChainedAppend(w, events[..n], e);
    assert (events[..n] + [e])[..n] == events[..n];
  }

  /** The signature is not hashed. Exchanged for another one the event still passes exactly when there is none, or the
      key and agent id are in order and the library is missing or the signature is the key's over this content. */
  lemma SignatureExchangedIff(w: World, events: seq<BusEvent>, i: nat, sig: Signature)
    requires Chained(w, events) && i < |events|
    ensures Chained(w, events[i := events[i].(sig := sig)]) <==>
            || sig == NoSig
            || (IsHex(events[i].pubkey, 64) && events[i].actor == w.agentIdFor(events[i].pubkey) &&
                (!w.nacl || (events[i].hash.Sha256? && sig == Ed25519(events[i].pubkey, events[i].hash.content))))
  {
    var changed := events[i := events[i].(sig := sig)];
    LinkHash(w, events, i);
    forall j | 0 <= j < |events| ensures LinkOk(w, changed, j) <==> (if j == i then Verify(w, changed[i]) != Invalid else true) {
      assert LinkOk(w, events, j);
      SameHeads(events, changed, j);
    }
    if Verify(w, changed[i]) == Invalid { assert !LinkOk(w, changed, i); }
  }

  lemma SameHeads(events: seq<BusEvent>, changed: seq<BusEvent>, j: nat)
    requires j <= |events| == |changed| && forall k :: 0 <= k < |events| ==> events[k].hash == changed[k].hash
    ensures Head(events[..j]) == Head(changed[..j])
  {
  }

  // ---------------------------------------------------------------- one row of the file

  /** Which event of the stream a row holds. */
  function PlaceOf(rows: seq<Row>, k: nat): nat
    requires k <= |rows|
  {
    |Events(rows[..k])|
  }

  lemma {:induction false} EventsReplaced(rows: seq<Row>, k: nat, row: Row)
    requires k < |rows| && rows[k].Object? && row.Object?
    ensures PlaceOf(rows, k) < |Events(rows)| && Events(rows)[PlaceOf(rows, k)] == EventIn(rows[k])
    ensures Events(rows[k := row]) == Events(rows)[PlaceOf(rows, k) := EventIn(row)]
  {
    var n := |rows| - 1;
    var init, last := rows[..n], rows[n];
    assert rows == init + [last];
    EventsAppend(init, last);
    if k == n {
      assert rows[k := row] == init + [row] && rows[..k] == init;
      EventsAppend(init, row);
    } else {
      EventsReplaced(init, k, row);
      assert rows[k := row] == init[k := row] + [last] && rows[..k] == init[..k];
      EventsAppend(init[k := row], last);
    }
  }

  /** The audit refuses a stream in which one row was changed in any hashed field: always when its hash was kept, and
      whatever the hash when another event follows. */
  lemma ChangeIsDetected(w: World, rows: seq<Row>, k: nat, row: Row)
    requires Accepted(w, rows) && k < |rows| && rows[k].Object? && row.Object? && !SameEvent(EventIn(row), EventIn(rows[k]))
    ensures EventIn(row).hash == EventIn(rows[k]).hash || PlaceOf(rows, k) + 1 < |Events(rows)| ==> !Accepted(w, rows[k := row])
  {
    EventsReplaced(rows, k, row);
    ChangedEvent(w, Events(rows), PlaceOf(rows, k), EventIn(row));
  }
}
