/** What an accepted receipt proves (nth_dao/execution_receipt.py): that its signer's key signed exactly what it says,
    that no part of it can be exchanged, and that the caller's work can be read back from an accepted chain. */
module ReceiptTampering {
  import opened Prelude
  import opened Receipts
  import opened ReceiptStores

  // ---------------------------------------------------------------- authenticity

  /** What a token must say for a receipt of this signer, stamp and goal, field by field; stamps are in microseconds,
      token times in milliseconds. */
  predicate Covers(cap: CapToken, key: string, issuedAt: nat, goal: string) {
    && issuedAt > 0 && cap.issuerSigOk && cap.mayReceiptSign && cap.subject == DidKey(key)
    && 1000 * cap.notBefore <= issuedAt < 1000 * (cap.notAfter + 1)
    && (cap.scopeTask != "" ==> cap.scopeTask == goal)
  }

  /** Signing some request with this signer's key, on some head, gives this receipt; the spelled-out key may be blank. */
  ghost predicate Authentic(r: Receipt) {
    && r.signer.DidKey?
    && (r.signerKey == r.signer.pubkey || r.signerKey == "")
    && exists q: Request, prev: HashText :: SignedFrom(r, q, prev)
  }

  predicate SignedFrom(r: Receipt, q: Request, prev: HashText)
    requires r.signer.DidKey?
  {
    && WellTyped(q.timeline) && (q.cap.Some? ==> Covers(q.cap.value, r.signer.pubkey, q.issuedAt, q.goal))
    && SignReceipt(q, Identity(r.signer.pubkey, true), prev) == Ok(r.(signerKey := r.signer.pubkey))
  }

  /** A receipt verifies exactly when its signer's key could have produced it. */
  lemma VerifiesIffAuthentic(r: Receipt)
    ensures VerifyReceipt(r) <==> Authentic(r)
  {
    if VerifyReceipt(r) {
      assert SignedFrom(r, Request(r.timeline, r.goal, r.id, r.cap, r.issuedAt, 0), NoHash);
    }
    if Authentic(r) {
      var q: Request, prev: HashText :| SignedFrom(r, q, prev);
      SignedReceiptVerifies(q, Identity(r.signer.pubkey, true), prev);
    }
  }

  /** So is every receipt of a chain the verifier accepts. */
  lemma AcceptedIsAuthentic(receipts: seq<Receipt>, r: Receipt)
    requires Accepted(receipts) && r in receipts
    ensures Authentic(r)
  {
    VerifiesIffAuthentic(r);
  }

  // ---------------------------------------------------------------- tamper evidence

  /** Of two receipts that verify, equal signatures mean equal signer, timeline and hash, and conversely. */
  lemma SignatureBinds(r: Receipt, s: Receipt)
    requires VerifyReceipt(r) && VerifyReceipt(s)
    ensures r.sig == s.sig <==> r.signer == s.signer && r.timeline == s.timeline
    ensures r.sig == s.sig <==> r.signer == s.signer && r.contentHash == s.contentHash
  {
    VerifiesIffAuthentic(r);
    VerifiesIffAuthentic(s);
  }

  /** No single part of a receipt that verifies can be exchanged: not its signature, not its timeline, with its hash
      recomputed or not, not its signer, not its hash. */
  lemma NothingExchanged(r: Receipt, sig: Signature, timeline: seq<Entry>, signer: Did, key: string, hash: HashText)
    requires VerifyReceipt(r)
    ensures sig != r.sig ==> !VerifyReceipt(r.(sig := sig))
    ensures timeline != r.timeline ==> !VerifyReceipt(r.(timeline := timeline, contentHash := hash))
    ensures signer != r.signer ==> !VerifyReceipt(r.(signer := signer, signerKey := key))
    ensures hash != r.contentHash ==> !VerifyReceipt(r.(contentHash := hash))
  {
    if VerifyReceipt(r.(sig := sig)) { SignatureBinds(r, r.(sig := sig)); }
    if VerifyReceipt(r.(timeline := timeline, contentHash := hash)) { SignatureBinds(r, r.(timeline := timeline, contentHash := hash)); }
    if VerifyReceipt(r.(signer := signer, signerKey := key)) { SignatureBinds(r, r.(signer := signer, signerKey := key)); }
  }

  /** A receipt that verifies without a token verifies with one exactly when the token covers it: an expired or early
      one, one for another subject, task or purpose, or one whose issuer did not sign it, spoils the receipt. */
  lemma TokenDecides(r: Receipt, cap: CapToken)
    requires VerifyReceipt(r.(cap := None))
    ensures VerifyReceipt(r.(cap := Some(cap))) <==> Covers(cap, r.signer.pubkey, r.issuedAt, r.goal)
  {
    VerifiesIffAuthentic(r.(cap := None));
  }

  /** Replacing one receipt of an accepted chain by one with the old signature and another timeline or signer, or by
      one with another signature on the same content, makes the verifier refuse the chain. */
  lemma ExchangeIsDetected(receipts: seq<Receipt>, i: nat, r: Receipt)
    requires Accepted(receipts) && i < |receipts|
    requires (r.sig == receipts[i].sig) != (r.signer == receipts[i].signer && r.timeline == receipts[i].timeline)
    ensures !Accepted(receipts[i := r])
  {
    assert receipts[i] in receipts && receipts[i := r][i] == r && r in receipts[i := r];
    if VerifyReceipt(r) { SignatureBinds(receipts[i], r); }
  }

  /** Not even the signer can rewrite history: replacing a receipt that another one points at by any receipt with
      another timeline, properly signed or not, makes the verifier refuse the chain. */
  lemma RewriteIsDetected(receipts: seq<Receipt>, i: nat, k: nat, r: Receipt)
    requires Accepted(receipts) && i < |receipts| && k < |receipts|
    requires PrevHash(receipts[k]) == receipts[i].contentHash && r.timeline != receipts[i].timeline
    ensures !Accepted(receipts[i := r])
  {
    var changed := receipts[i := r];
    if Accepted(changed) {
      ChecksOf(receipts);
      ChecksOf(changed);
      assert receipts[i] in Elements(receipts) && receipts[k] in Elements(receipts);
      LinkRank(receipts[k], receipts[i]);
      assert changed[k] == receipts[k] && changed[k] in Elements(changed);
      assert HasPredecessor(Elements(changed), changed[k]);
      var q :| q in Elements(changed) && q.contentHash == receipts[i].contentHash;
      var j :| 0 <= j < |changed| && changed[j] == q;
      SameHashSameReceipt(receipts, changed, i, j);
    }
  }

  lemma ChecksOf(receipts: seq<Receipt>)
    requires Accepted(receipts)
    ensures SetChecks(Elements(receipts)) && AllSealed(Elements(receipts)) && NoDup(receipts)
  {
    VerifiedIsSealed(receipts);
    LocalChecksIffOneLine(receipts);
    HashesDistinct(receipts);
    LocalChecksOnSet(receipts);
  }

  lemma SameHashSameReceipt(receipts: seq<Receipt>, changed: seq<Receipt>, i: nat, j: nat)
    requires i < |receipts| == |changed| && j < |changed| && changed == receipts[i := changed[i]]
    requires AllSealed(Elements(receipts)) && AllSealed(Elements(changed)) && SetChecks(Elements(receipts)) && NoDup(receipts)
    requires changed[j].contentHash == receipts[i].contentHash
    ensures changed[i].timeline == receipts[i].timeline
  {
    assert changed[j] in Elements(changed) && receipts[i] in Elements(receipts);
    assert Sealed(changed[j]) && Sealed(receipts[i]);
    assert receipts[j] in Elements(receipts) && forall x :: 0 <= x < |receipts| && x != i ==> changed[x] == receipts[x];
  }

  // ---------------------------------------------------------------- the caller's work is kept

  /** The caller's part of a receipt: its timeline without the link that signing put in front. */
  function WorkOf(r: Receipt, linked: bool): seq<Entry> {
    if linked && r.timeline != [] then r.timeline[1..] else r.timeline
  }

  /** The receipt holds what this request asked for; only the store's link, if any, is put in front of its entries. */
  predicate Holds(r: Receipt, q: Request, linked: bool) {
    && WorkOf(r, linked) == q.timeline && |r.timeline| == |q.timeline| + (if linked then 1 else 0)
    && r.id == q.id && r.goal == q.goal && r.issuedAt == q.issuedAt && r.cap == q.cap
  }

  lemma SignedHolds(q: Request, who: Identity, prev: HashText)
    requires SignReceipt(q, who, prev).Ok?
    ensures Holds(SignReceipt(q, who, prev).value, q, prev != NoHash)
  {
  }

  /** What a signer's process asked for in the steps before `n`, in commit order. */
  ghost function Asked(states: seq<Store>, steps: seq<Step>, key: string, n: nat): seq<Request>
    requires |states| == |steps| + 1 && n <= |steps|
  {
    if n == 0 then []
    else
      var before := Asked(states, steps, key, n - 1);
      if Added(states[n - 1], steps[n - 1], key) == [] then before else before + [steps[n - 1].q]
  }

  ghost predicate AllHeld(history: seq<Receipt>, asked: seq<Request>) {
    |history| == |asked| && forall i :: 0 <= i < |history| ==> Holds(history[i], asked[i], i > 0)
  }

  lemma LinkedIffLater(order: HashText -> nat, s: Store, key: string, history: seq<Receipt>)
    requires Recorded(order, s, key, history) && key in s.locks
    ensures s.locks[key] == NoHash <==> history == []
  {
    if history != [] { HeadIsHex(order, history, s.locks[key]); }
  }

  lemma CommitHolds(order: HashText -> nat, s: Store, step: Step, key: string, history: seq<Receipt>, asked: seq<Request>)
    requires Recorded(order, s, key, history) && AllHeld(history, asked) && Added(s, step, key) != []
    ensures AllHeld(history + Added(s, step, key), asked + [step.q])
  {
    LinkedIffLater(order, s, key, history);
    SignedHolds(step.q, Identity(key, true), s.locks[key]);
  }

  lemma StepHolds(order: HashText -> nat, s: Store, step: Step, key: string, history: seq<Receipt>, asked: seq<Request>)
    requires Recorded(order, s, key, history) && AllHeld(history, asked)
    ensures AllHeld(history + Added(s, step, key), if Added(s, step, key) == [] then asked else asked + [step.q])
  {
    if Added(s, step, key) == [] {
      assert history + [] == history;
    } else {
      CommitHolds(order, s, step, key, history, asked);
    }
  }

  lemma LastStep(states: seq<Store>, steps: seq<Step>, key: string, n: nat) returns (history: seq<Receipt>, asked: seq<Request>)
    requires |states| == |steps| + 1 && 0 < n <= |steps|
    ensures history == Committed(states, steps, key, n - 1) && asked == Asked(states, steps, key, n - 1)
    ensures var added := Added(states[n - 1], steps[n - 1], key);
            && Committed(states, steps, key, n) == history + added
            && Asked(states, steps, key, n) == if added == [] then asked else asked + [steps[n - 1].q]
  {
    history, asked := Committed(states, steps, key, n - 1), Asked(states, steps, key, n - 1);
  }

  ghost predicate HeldAt(states: seq<Store>, steps: seq<Step>, key: string, n: nat)
    requires |states| == |steps| + 1 && n <= |steps|
  {
    AllHeld(Committed(states, steps, key, n), Asked(states, steps, key, n))
  }

  lemma HeldNext(order: HashText -> nat, states: seq<Store>, steps: seq<Step>, key: string, n: nat)
    requires |states| == |steps| + 1 && 0 < n <= |steps| && HeldAt(states, steps, key, n - 1)
    requires Recorded(order, states[n - 1], key, Committed(states, steps, key, n - 1))
    ensures HeldAt(states, steps, key, n)
  {
    var history, asked := LastStep(states, steps, key, n);
    StepHolds(order, states[n - 1], steps[n - 1], key, history, asked);
  }

  lemma {:induction false} CommitsHold(order: HashText -> nat, states: seq<Store>, steps: seq<Step>, key: string, n: nat)
    requires Run(order, states, steps) && n <= |steps|
    ensures HeldAt(states, steps, key, n)
  {
    if n > 0 {
      CommitsHold(order, states, steps, key, n - 1);
      RunIsRecorded(order, states, steps, key, n - 1);
      HeldNext(order, states, steps, key, n);
    }
  }

  /** From any accepted listing of a signer's stored receipts, whatever its order, the requests are recovered: the only
      straight line through it holds the callers' own entries, goals, stamps and tokens, in commit order. */
  lemma WorkIsRecovered(
    order: HashText -> nat, states: seq<Store>, steps: seq<Step>, key: string, listing: seq<Receipt>, line: seq<Receipt>)
    requires Injective(order) && Run(order, states, steps)
    requires NoDup(listing) && Elements(listing) == Mine(states[|steps|].files, DidKey(key)) && listing != []
    requires Accepted(listing) && LineOf(line, listing)
    ensures AllHeld(line, Asked(states, steps, key, |steps|))
  {
    var history := Committed(states, steps, key, |steps|);
    ChainAcceptedIff(order, states, steps, key, listing);
    VerifiedIsSealed(listing);
    LocalChecksIffOneLine(listing);
    assert line == history;
    CommitsHold(order, states, steps, key, |steps|);
    assert HeldAt(states, steps, key, |steps|);
  }
}
