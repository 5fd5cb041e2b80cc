/** The file-backed receipt store: signing under a per-signer lock keeps every chain straight
    (nth_dao/execution_receipt.py, `ReceiptStore`). */
module ReceiptStores {
  import opened Prelude
  import opened Receipts

  datatype Identity = Identity(pubkey: string, canSign: bool)

  /** The caller's part of a signing request; `nowMs` is read only when the timeline is empty. */
  datatype Request = Request(
    timeline: seq<Entry>, goal: string, id: string, cap: Option<CapToken>, issuedAt: nat, nowMs: nat)

  /** Timeline entries cannot be built with an empty type. */
  predicate WellTyped(timeline: seq<Entry>) {
    forall e :: e in timeline ==> e.kind != ""
  }

  function Linked(timeline: seq<Entry>, prev: HashText, nowMs: nat): seq<Entry> {
    if prev == NoHash then timeline
    else [Entry(if timeline == [] then nowMs else timeline[0].timestamp, CHAIN_LINK, Payload(prev, ""))] + timeline
  }

  function SignReceipt(q: Request, who: Identity, prev: HashText): Result<Receipt> {
    if prev.NotHex? then Err("prev_content_hash must be 64-char lowercase hex")
    else
      var timeline := Linked(q.timeline, prev, q.nowMs);
      if timeline == [] then Err("cannot hash empty timeline")
      else if !who.canSign then Err("identity cannot sign")
      else Ok(Receipt(q.id, q.goal, DidKey(who.pubkey), who.pubkey, q.issuedAt, timeline,
                      Hex(Sha256(timeline)), Ed25519(who.pubkey, Sha256(timeline)), q.cap))
  }

  /** Signing succeeds exactly with a signing key, a head that is empty or a digest, and something to sign. */
  lemma SignsIff(q: Request, who: Identity, prev: HashText)
    ensures SignReceipt(q, who, prev).Ok? <==>
            who.canSign && (prev == NoHash || prev.Hex?) && (q.timeline != [] || prev.Hex?)
  {
  }

  /** A freshly signed receipt verifies exactly when its capability token (if any) covers it,
      and its recorded predecessor is the one it was signed against. */
  lemma SignedReceiptVerifies(q: Request, who: Identity, prev: HashText)
    requires WellTyped(q.timeline) && SignReceipt(q, who, prev).Ok?
    ensures var r := SignReceipt(q, who, prev).value;
            && (VerifyReceipt(r) <==> (q.cap.Some? ==> CapOk(r, who.pubkey, q.cap.value)))
            && PrevHash(r) == (if prev == NoHash then PrevIn(q.timeline) else prev)
  {
    var r := SignReceipt(q, who, prev).value;
    if prev != NoHash {
      assert r.timeline[1..] == q.timeline;
      assert forall e :: e in r.timeline ==> e == r.timeline[0] || e in q.timeline;
    }
  }

  /** The request's own entries in order, preceded by exactly one link entry when the signer has receipts already. */
  function StoredTimeline(q: Request, more: bool, head: HashText): seq<Entry> {
    if !more then q.timeline
    else
      var stamp := match |q.timeline| case 0 => q.nowMs case _ => q.timeline[0].timestamp;
      [Entry(stamp, "nth.chain_link", Payload(head, ""))] + q.timeline
  }

  // ---------------------------------------------------------------- the head of a chain

  ghost function Mine(files: map<string, Receipt>, signer: Did): set<Receipt> {
    set id | id in files && files[id].signer == signer :: files[id]
  }

  predicate Later(order: HashText -> nat, a: Receipt, b: Receipt) {
    a.issuedAt > b.issuedAt || (a.issuedAt == b.issuedAt && order(a.contentHash) > order(b.contentHash))
  }

  /** `h` is the content hash of a latest receipt in `s`, or empty when there is none. */
  ghost predicate IsHead(s: set<Receipt>, order: HashText -> nat, h: HashText) {
    if s == {} then h == NoHash
    else exists r :: r in s && r.contentHash == h && forall q :: q in s ==> !Later(order, q, r)
  }

  lemma HeadIsText(s: set<Receipt>, order: HashText -> nat, h: HashText)
    requires IsHead(s, order, h) && forall q :: q in s ==> VerifyReceipt(q)
    ensures if s == {} then h == NoHash else h.Hex?
  {
  }

  class ReceiptStore {
    /** Python's `str.isalnum`, and the position of a hash text in string order. */
    const isAlnum: char -> bool
    const hexOrder: HashText -> nat
    var files: map<string, Receipt>

    constructor (isAlnum: char -> bool, hexOrder: HashText -> nat)
      ensures files == map[] && this.isAlnum == isAlnum && this.hexOrder == hexOrder
    {
      this.isAlnum, this.hexOrder, files := isAlnum, hexOrder, map[];
    }

    ghost predicate EmptyTextSortsFirst() {
      forall h :: h != NoHash ==> hexOrder(h) > hexOrder(NoHash)
    }

    predicate PlainId(id: string) {
      id != "" && forall c :: c in id ==> isAlnum(c) || c == '-'
    }

    /** Scans the directory in any order; refuses if any of the signer's receipts does not verify. */
    method VerifiedHead(signer: Did) returns (r: Result<HashText>)
      requires EmptyTextSortsFirst()
      ensures r.Ok? <==> forall q :: q in Mine(files, signer) ==> VerifyReceipt(q)
      ensures r.Ok? ==> IsHead(Mine(files, signer), hexOrder, r.value)
    {
      var todo, issued, hash := files.Keys, 0, NoHash;
      ghost var done: set<Receipt> := {};
      while todo != {}
        invariant todo <= files.Keys
        invariant done == set id | id in files && id !in todo && files[id].signer == signer :: files[id]
        invariant forall q :: q in done ==> VerifyReceipt(q)
        invariant if done == {} then issued == 0 && hash == NoHash
                  else exists b :: && b in done && b.issuedAt == issued && b.contentHash == hash
                                   && forall q :: q in done ==> !Later(hexOrder, q, b)
        decreases todo
      {
        var id :| id in todo;
        todo := todo - {id};
        var f := files[id];
        if f.signer == signer {
          if !VerifyReceipt(f) {
            assert f in Mine(files, signer);
            return Err("refusing to extend a poisoned chain");
          }
          if f.issuedAt > issued || (f.issuedAt == issued && hexOrder(f.contentHash) > hexOrder(hash)) {
            issued, hash := f.issuedAt, f.contentHash;
          }
          done := done + {f};
        }
      }
      assert done == Mine(files, signer);
      return Ok(hash);
    }

    /** Head lookup, signing and saving; the source holds the signer's lock throughout. */
    method SignAndSave(q: Request, who: Identity) returns (r: Result<Receipt>)
      requires EmptyTextSortsFirst() && WellTyped(q.timeline)
      modifies this`files
      ensures r.Err? ==> files == old(files)
      ensures r.Ok? ==> && r.value.id == q.id && files == old(files)[q.id := r.value]
                        && exists h :: && IsHead(Mine(old(files), DidKey(who.pubkey)), hexOrder, h)
                                       && r == SignReceipt(q, who, h)
                                       && r.value.timeline == StoredTimeline(q, Mine(old(files), DidKey(who.pubkey)) != {}, h)
      ensures r.Ok? ==> && r.value.goal == q.goal && r.value.issuedAt == q.issuedAt && r.value.cap == q.cap
                        && r.value.signer == DidKey(who.pubkey) && VerifyReceipt(r.value.(cap := None))
      ensures r.Ok? <==> && who.canSign && q.id != "" && (forall c :: c in q.id ==> isAlnum(c) || c == '-')
                         && (forall f :: f in Mine(old(files), DidKey(who.pubkey)) ==> VerifyReceipt(f))
                         && (q.timeline != [] || Mine(old(files), DidKey(who.pubkey)) != {})
    {
      if !who.canSign {
        return Err("receipt identity cannot sign");
      }
      var head := VerifiedHead(DidKey(who.pubkey));
      if head.Err? {
        return Err(head.reason);
      }
      HeadIsText(Mine(files, DidKey(who.pubkey)), hexOrder, head.value);
      r := SignReceipt(q, who, head.value);
      if r.Ok? { SignedReceiptVerifies(q.(cap := None), who, head.value); }
      if r.Ok? {
        if !PlainId(q.id) {
          return Err("receipt_id must be alphanumeric (or dash)");
        }
        files := files[q.id := r.value];
      }
    }
  }

  // ---------------------------------------------------------------- runs of many processes and signers

  /** `locks` maps each signer whose lock is held to the head that process has read. */
  datatype Store = Store(files: map<string, Receipt>, locks: map<string, HashText>)

  datatype Step = Acquire(key: string) | Commit(key: string, q: Request) | Abort(key: string)

  /** Anything that can be signed and stored under a fresh id: any stamp, any token, any caller timeline. */
  predicate CommitOk(s: Store, key: string, q: Request)
    requires key in s.locks
  {
    WellTyped(q.timeline) && SignReceipt(q, Identity(key, true), s.locks[key]).Ok? && q.id !in s.files
  }

  function Signed(s: Store, key: string, q: Request): Receipt
    requires key in s.locks && CommitOk(s, key, q)
  {
    SignReceipt(q, Identity(key, true), s.locks[key]).value
  }

  ghost predicate Next(order: HashText -> nat, s: Store, step: Step, s': Store) {
    match step
    case Acquire(key) =>
      && key !in s.locks
      && (forall f :: f in Mine(s.files, DidKey(key)) ==> VerifyReceipt(f))
      && exists h :: IsHead(Mine(s.files, DidKey(key)), order, h) && s' == s.(locks := s.locks[key := h])
    case Commit(key, q) =>
      && key in s.locks && CommitOk(s, key, q)
      && s' == Store(s.files[q.id := Signed(s, key, q)], s.locks - {key})
    case Abort(key) =>
      key in s.locks && s' == s.(locks := s.locks - {key})
  }

  /** Distinct hash texts have distinct places in string order. */
  ghost predicate Injective(order: HashText -> nat) {
    forall a, b :: order(a) == order(b) ==> a == b
  }

  lemma HeadIsUnique(order: HashText -> nat, s: set<Receipt>, h: HashText, h': HashText)
    requires Injective(order) && IsHead(s, order, h) && IsHead(s, order, h')
    ensures h == h'
  {
    if s != {} {
      var r :| r in s && r.contentHash == h && forall q :: q in s ==> !Later(order, q, r);
      var r' :| r' in s && r'.contentHash == h' && forall q :: q in s ==> !Later(order, q, r');
      assert !Later(order, r, r') && !Later(order, r', r);
    }
  }

  /** The receipt at `i` links to the head of those committed before it. */
  ghost predicate LinksToHead(order: HashText -> nat, history: seq<Receipt>, i: nat)
    requires i < |history|
  {
    i > 0 ==> PrevHash(history[i]).Hex? && IsHead(Elements(history[..i]), order, PrevHash(history[i]))
  }

  /** When it was committed, no earlier receipt sorted after it. */
  predicate OnTop(order: HashText -> nat, history: seq<Receipt>, i: nat)
    requires i < |history|
  {
    forall j :: 0 <= j < i ==> !Later(order, history[j], history[i])
  }

  ghost predicate AllLinked(order: HashText -> nat, history: seq<Receipt>) {
    forall i :: 0 <= i < |history| ==> LinksToHead(order, history, i)
  }

  /** What every history has, whatever was committed: distinct sealed receipts of the signer, each linked to the
      head of its time, and none but the newest can fail verification. */
  ghost predicate Sound(order: HashText -> nat, key: string, history: seq<Receipt>) {
    && NoDup(history)
    && (forall i :: 0 <= i < |history| ==> Sealed(history[i]) && history[i].signer == DidKey(key))
    && AllLinked(order, history)
    && (forall i :: 0 <= i < |history| - 1 ==> VerifyReceipt(history[i]))
  }

  /** `history` lists the signer's stored receipts, oldest first; while its lock is held they all verify and the
      holder knows the head. */
  ghost predicate Recorded(order: HashText -> nat, s: Store, key: string, history: seq<Receipt>) {
    && Elements(history) == Mine(s.files, DidKey(key))
    && Sound(order, key, history)
    && (forall id :: id in s.files ==> s.files[id].id == id)
    && (key in s.locks ==> AllVerify(history) && IsHead(Elements(history), order, s.locks[key]))
  }

  /** Whoever finds the lock free and a chain that verifies can commit: taking the lock and committing are both enabled,
      and afterwards the receipt is stored, the lock is free and nothing else has changed. */
  lemma CommitPossible(order: HashText -> nat, s: Store, key: string, q: Request, h: HashText) returns (held: Store, after: Store)
    requires key !in s.locks && (forall f :: f in Mine(s.files, DidKey(key)) ==> VerifyReceipt(f))
    requires IsHead(Mine(s.files, DidKey(key)), order, h)
    requires WellTyped(q.timeline) && q.id !in s.files && (q.timeline != [] || Mine(s.files, DidKey(key)) != {})
    ensures Next(order, s, Acquire(key), held) && Next(order, held, Commit(key, q), after)
    ensures q.id in after.files && after.files == s.files[q.id := after.files[q.id]] && after.locks == s.locks
    ensures SignReceipt(q, Identity(key, true), h) == Ok(after.files[q.id])
  {
    HeadIsText(Mine(s.files, DidKey(key)), order, h);
    SignsIff(q, Identity(key, true), h);
    held := s.(locks := s.locks[key := h]);
    after := Store(held.files[q.id := Signed(held, key, q)], held.locks - {key});
    assert held.locks - {key} == s.locks;
  }

  /** What a step adds to a signer's history. */
  ghost function Added(s: Store, step: Step, key: string): seq<Receipt> {
    if step.Commit? && step.key == key && key in s.locks && CommitOk(s, key, step.q)
    then [Signed(s, key, step.q)] else []
  }

  lemma OthersUntouched(s: Store, step: Step, key: string)
    requires step.Commit? && step.key in s.locks && CommitOk(s, step.key, step.q) && step.key != key
    ensures Mine(s.files[step.q.id := Signed(s, step.key, step.q)], DidKey(key)) == Mine(s.files, DidKey(key))
  {
    var r := Signed(s, step.key, step.q);
    var files' := s.files[step.q.id := r];
    assert r.signer == DidKey(step.key);
    assert forall id :: id in s.files ==> id in files' && files'[id] == s.files[id];
  }

  lemma MineGrows(s: Store, key: string, q: Request)
    requires key in s.locks && CommitOk(s, key, q)
    ensures Mine(s.files[q.id := Signed(s, key, q)], DidKey(key)) == Mine(s.files, DidKey(key)) + {Signed(s, key, q)}
  {
    var r := Signed(s, key, q);
    var files' := s.files[q.id := r];
    assert r.signer == DidKey(key);
    assert files'[q.id] == r && q.id in files';
    assert forall id :: id in s.files ==> id in files' && files'[id] == s.files[id];
  }

  lemma ElementsAppend(history: seq<Receipt>, r: Receipt)
    ensures Elements(history + [r]) == Elements(history) + {r}
  {
  }

  lemma SoundAppend(order: HashText -> nat, key: string, history: seq<Receipt>, r: Receipt)
    requires Sound(order, key, history) && AllVerify(history) && r !in history && Sealed(r) && r.signer == DidKey(key)
    requires history != [] ==> PrevHash(r).Hex? && IsHead(Elements(history), order, PrevHash(r))
    ensures Sound(order, key, history + [r])
  {
    var longer := history + [r];
    forall i | 0 <= i < |longer| ensures LinksToHead(order, longer, i) {
      assert longer[..i] == history[..i];
      if i < |history| {
        assert LinksToHead(order, history, i);
      } else {
        assert history[..i] == history;
      }
    }
    forall i | 0 <= i < |history| ensures VerifyReceipt(longer[i]) { assert history[i] in history; }
  }

  lemma HeadIsHex(order: HashText -> nat, history: seq<Receipt>, h: HashText)
    requires history != [] && (forall i :: 0 <= i < |history| ==> Sealed(history[i])) && IsHead(Elements(history), order, h)
    ensures h.Hex?
  {
    assert history[0] in Elements(history);
  }

  lemma CommitKeepsRecord(order: HashText -> nat, s: Store, key: string, q: Request, history: seq<Receipt>)
    requires key in s.locks && CommitOk(s, key, q) && Recorded(order, s, key, history)
    ensures Recorded(order, Store(s.files[q.id := Signed(s, key, q)], s.locks - {key}), key, history + [Signed(s, key, q)])
  {
    var r := Signed(s, key, q);
    SignedReceiptVerifies(q, Identity(key, true), s.locks[key]);
    MineGrows(s, key, q);
    ElementsAppend(history, r);
    forall f | f in history ensures f.id != q.id {
      assert f in Mine(s.files, DidKey(key));
    }
    if history != [] { HeadIsHex(order, history, s.locks[key]); }
    SoundAppend(order, key, history, r);
  }

  /** Every step of any process, whatever it commits, keeps every signer's history. */
  lemma StepKeepsRecord(order: HashText -> nat, s: Store, step: Step, s': Store, key: string, history: seq<Receipt>)
    requires Next(order, s, step, s') && Recorded(order, s, key, history)
    ensures Recorded(order, s', key, history + Added(s, step, key))
  {
    if step.key == key && step.Commit? {
      CommitKeepsRecord(order, s, key, step.q, history);
    } else {
      assert history + Added(s, step, key) == history;
      if step.Commit? {
        OthersUntouched(s, step, key);
      }
    }
  }

  ghost predicate StepAt(order: HashText -> nat, states: seq<Store>, steps: seq<Step>, i: nat)
    requires i < |steps| && i + 1 < |states|
  {
    Next(order, states[i], steps[i], states[i + 1])
  }

  ghost predicate Run(order: HashText -> nat, states: seq<Store>, steps: seq<Step>) {
    && |states| == |steps| + 1
    && states[0] == Store(map[], map[])
    && forall i :: 0 <= i < |steps| ==> StepAt(order, states, steps, i)
  }

  /** The receipts a signer committed during a run, in commit order. */
  ghost function Committed(states: seq<Store>, steps: seq<Step>, key: string, n: nat): seq<Receipt>
    requires |states| == |steps| + 1 && n <= |steps|
  {
    if n == 0 then [] else Committed(states, steps, key, n - 1) + Added(states[n - 1], steps[n - 1], key)
  }

  lemma {:induction false} RunIsRecorded(order: HashText -> nat, states: seq<Store>, steps: seq<Step>, key: string, n: nat)
    requires Run(order, states, steps) && n <= |steps|
    ensures Recorded(order, states[n], key, Committed(states, steps, key, n))
  {
    if n == 0 {
      assert Mine(states[0].files, DidKey(key)) == {};
    } else {
      RunIsRecorded(order, states, steps, key, n - 1);
      assert StepAt(order, states, steps, n - 1);
      StepKeepsRecord(order, states[n - 1], steps[n - 1], states[n], key, Committed(states, steps, key, n - 1));
    }
  }

  // ---------------------------------------------------------------- when the chain is accepted

  /** All of them verify, the first carries no link, and every receipt but the newest sorted last when committed. */
  predicate Orderly(order: HashText -> nat, history: seq<Receipt>) {
    && history != []
    && VerifyReceipt(history[|history| - 1])
    && PrevHash(history[0]) == NoHash
    && forall i :: 0 <= i < |history| - 1 ==> OnTop(order, history, i)
  }

  lemma TopIsHead(order: HashText -> nat, history: seq<Receipt>, i: nat)
    requires i < |history| && OnTop(order, history, i)
    ensures IsHead(Elements(history[..i + 1]), order, history[i].contentHash)
  {
    var upTo := history[..i + 1];
    assert history[i] == upTo[i] && upTo[i] in Elements(upTo);
    forall q | q in Elements(upTo) ensures !Later(order, q, history[i]) {
      var j :| 0 <= j < |upTo| && upTo[j] == q;
      assert upTo[j] == history[j];
    }
  }

  lemma LinksToTop(order: HashText -> nat, history: seq<Receipt>, i: nat)
    requires Injective(order) && 0 < i < |history| && LinksToHead(order, history, i) && OnTop(order, history, i - 1)
    ensures PrevHash(history[i]) == history[i - 1].contentHash
  {
    TopIsHead(order, history, i - 1);
    HeadIsUnique(order, Elements(history[..i]), PrevHash(history[i]), history[i - 1].contentHash);
  }

  lemma OrderlyIsLine(order: HashText -> nat, key: string, history: seq<Receipt>)
    requires Injective(order) && Sound(order, key, history) && Orderly(order, history)
    ensures Line(history) && AllVerify(history)
  {
    forall i | 0 < i < |history| ensures PrevHash(history[i]) == history[i - 1].contentHash {
      assert LinksToHead(order, history, i) && OnTop(order, history, i - 1);
      LinksToTop(order, history, i);
    }
    forall r | r in history ensures VerifyReceipt(r) {
      var i :| 0 <= i < |history| && history[i] == r;
    }
  }

  /** A receipt that does not sort last leaves the head where it was. */
  lemma HeadStays(order: HashText -> nat, before: set<Receipt>, r: Receipt, q: Receipt, h: HashText)
    requires IsHead(before + {r}, order, h) && q in before && Later(order, q, r)
    ensures IsHead(before, order, h)
  {
    var all := before + {r};
    assert q in all;
    var top :| top in all && top.contentHash == h && forall x :: x in all ==> !Later(order, x, top);
    assert top in before && forall x :: x in before ==> x in all;
  }

  /** So the next one takes the same link. */
  lemma ForkUnlessOnTop(order: HashText -> nat, history: seq<Receipt>, i: nat)
    requires Injective(order) && i + 1 < |history| && LinksToHead(order, history, i) && LinksToHead(order, history, i + 1)
    ensures OnTop(order, history, i) || (i > 0 && PrevHash(history[i]) == PrevHash(history[i + 1]) != NoHash)
  {
    if !OnTop(order, history, i) {
      var j :| 0 <= j < i && Later(order, history[j], history[i]);
      assert history[..i][j] == history[j];
      assert history[..i + 1] == history[..i] + [history[i]];
      ElementsAppend(history[..i], history[i]);
      HeadStays(order, Elements(history[..i]), history[i], history[j], PrevHash(history[i + 1]));
      HeadIsUnique(order, Elements(history[..i]), PrevHash(history[i + 1]), PrevHash(history[i]));
    }
  }

  lemma LineMeansOrderly(order: HashText -> nat, key: string, history: seq<Receipt>, listing: seq<Receipt>)
    requires Injective(order) && Sound(order, key, history) && history != [] && AllVerify(history)
    requires Elements(listing) == Elements(history) && SetChecks(Elements(listing))
    ensures Orderly(order, history)
  {
    var s := Elements(history);
    assert history[|history| - 1] in history;
    var g :| OnlyRoot(s, g);
    var k :| 0 <= k < |history| && history[k] == g;
    assert LinksToHead(order, history, k);
    assert k == 0;
    forall i | 0 <= i < |history| - 1 ensures OnTop(order, history, i) {
      assert history[i] in s && history[i + 1] in s && history[i] != history[i + 1];
      assert LinksToHead(order, history, i) && LinksToHead(order, history, i + 1);
      ForkUnlessOnTop(order, history, i);
    }
  }

  /** For every run, by any number of processes and signers and whatever they commit: a listing of a signer's
      stored receipts is an accepted chain exactly when its newest receipt verifies, its first commit carried no
      link of its own, and every commit but the newest sorted last when it was made. */
  lemma ChainAcceptedIff(order: HashText -> nat, states: seq<Store>, steps: seq<Step>, key: string, listing: seq<Receipt>)
    requires Injective(order) && Run(order, states, steps)
    requires NoDup(listing) && Elements(listing) == Mine(states[|steps|].files, DidKey(key)) && listing != []
    ensures var history := Committed(states, steps, key, |steps|);
            && multiset(history) == multiset(listing) && history != []
            && (Accepted(listing) <==> Orderly(order, history))
            && (Accepted(listing) ==> LineOf(history, listing))
  {
    var history := Committed(states, steps, key, |steps|);
    RunIsRecorded(order, states, steps, key, |steps|);
    NoDupMultiset(history);
    NoDupMultiset(listing);
    assert listing[0] in Elements(history);
    SameSigner(key, history, listing);
    AcceptedIffOrderly(order, key, history, listing);
  }

  lemma SameSigner(key: string, history: seq<Receipt>, listing: seq<Receipt>)
    requires (forall i :: 0 <= i < |history| ==> history[i].signer == DidKey(key)) && Elements(listing) == Elements(history)
    requires listing != []
    ensures OneSigner(listing) && (AllVerify(listing) <==> AllVerify(history))
  {
    forall r | r in listing ensures r.signer == DidKey(key) {
      assert r in Elements(history);
      var i :| 0 <= i < |history| && history[i] == r;
    }
    assert listing[0] in listing;
    assert forall r :: r in listing <==> r in Elements(listing);
    assert forall r :: r in history <==> r in Elements(history);
  }

  lemma AcceptedIffOrderly(order: HashText -> nat, key: string, history: seq<Receipt>, listing: seq<Receipt>)
    requires Injective(order) && Sound(order, key, history) && history != [] && OneSigner(listing)
    requires multiset(history) == multiset(listing) && Elements(history) == Elements(listing)
    requires AllVerify(listing) <==> AllVerify(history)
    ensures Accepted(listing) <==> Orderly(order, history)
    ensures Accepted(listing) ==> LineOf(history, listing)
  {
    if Orderly(order, history) {
      OrderlyIsLine(order, key, history);
      assert LineOf(history, listing);
    }
    if Accepted(listing) {
      var line :| LineOf(line, listing);
      VerifiedIsSealed(listing);
      LineMeansChecks(line, listing);
      LineMeansOrderly(order, key, history, listing);
      OrderlyIsLine(order, key, history);
    }
  }

  /** The head a scan finds in an accepted chain is its newest receipt exactly when that one sorted last too. */
  lemma HeadIsNewestIff(order: HashText -> nat, history: seq<Receipt>, h: HashText)
    requires Injective(order) && Line(history) && AllSealed(Elements(history)) && IsHead(Elements(history), order, h)
    ensures h == history[|history| - 1].contentHash <==> OnTop(order, history, |history| - 1)
  {
    var n := |history| - 1;
    assert history[..n + 1] == history;
    if OnTop(order, history, n) {
      TopIsHead(order, history, n);
      HeadIsUnique(order, Elements(history), h, history[n].contentHash);
    }
    if h == history[n].contentHash {
      var r :| r in Elements(history) && r.contentHash == h && forall q :: q in Elements(history) ==> !Later(order, q, r);
      LineGivesChecks(history);
      assert history[n] in Elements(history);
      assert r == history[n];
      forall j | 0 <= j < n ensures !Later(order, history[j], history[n]) { assert history[j] in Elements(history); }
    }
  }

  /** Strictly increasing stamps, tokens that cover their receipt, and no link in front of the first one. */
  predicate Promised(history: seq<Receipt>) {
    && (forall i, j :: 0 <= i < j < |history| ==> history[i].issuedAt < history[j].issuedAt)
    && AllVerify(history)
    && (history != [] ==> PrevHash(history[0]) == NoHash)
  }

  lemma PromisedIsOrderly(order: HashText -> nat, history: seq<Receipt>)
    requires Promised(history) && history != []
    ensures Orderly(order, history) && OnTop(order, history, |history| - 1)
  {
    assert history[|history| - 1] in history;
  }

  /** The promised case: the chain is accepted and its head is the signer's last receipt. */
  lemma EverySignerHasOneChain(
    order: HashText -> nat, states: seq<Store>, steps: seq<Step>, key: string, listing: seq<Receipt>, h: HashText)
    requires Injective(order) && Run(order, states, steps)
    requires NoDup(listing) && Elements(listing) == Mine(states[|steps|].files, DidKey(key)) && listing != []
    requires IsHead(Elements(listing), order, h) && Promised(Committed(states, steps, key, |steps|))
    ensures var history := Committed(states, steps, key, |steps|);
            Accepted(listing) && LineOf(history, listing) && h == history[|history| - 1].contentHash
  {
    var history := Committed(states, steps, key, |steps|);
    ChainAcceptedIff(order, states, steps, key, listing);
    PromisedIsOrderly(order, history);
    PermutationElements(history, listing);
    VerifiedIsSealed(history);
    HeadIsNewestIff(order, history, h);
  }

  /** A first receipt is an accepted chain exactly when the caller's timeline does not open with a link of its own. */
  lemma FirstReceiptAcceptedIff(q: Request, key: string)
    requires WellTyped(q.timeline) && q.timeline != []
    requires q.cap.Some? ==> CapOk(SignReceipt(q, Identity(key, true), NoHash).value, key, q.cap.value)
    ensures var r := SignReceipt(q, Identity(key, true), NoHash).value;
            VerifyReceipt(r) && (Accepted([r]) <==> PrevIn(q.timeline) == NoHash)
  {
    SignedReceiptVerifies(q, Identity(key, true), NoHash);
    var r := SignReceipt(q, Identity(key, true), NoHash).value;
    forall o | o != [] && multiset(o) == multiset([r]) ensures o[0] == r {
      PermutationElements(o, [r]);
      assert o[0] in Elements([r]);
    }
    if PrevIn(q.timeline) == NoHash {
      assert LineOf([r], [r]);
    }
  }

  /** A receipt that does not verify is its signer's last: no later step commits anything for that signer. */
  lemma {:induction false} PoisonedForever(order: HashText -> nat, states: seq<Store>, steps: seq<Step>, key: string, k: nat, n: nat)
    requires Run(order, states, steps) && k <= n <= |steps| && key !in states[k].locks
    requires exists r :: r in Mine(states[k].files, DidKey(key)) && !VerifyReceipt(r)
    ensures Committed(states, steps, key, n) == Committed(states, steps, key, k) && key !in states[n].locks
    ensures Mine(states[n].files, DidKey(key)) == Mine(states[k].files, DidKey(key))
  {
    if n > k {
      PoisonedForever(order, states, steps, key, k, n - 1);
      assert StepAt(order, states, steps, n - 1);
      var step := steps[n - 1];
      assert step.key == key ==> !step.Commit? && !step.Abort?;
      if step.Commit? { OthersUntouched(states[n - 1], step, key); }
    }
  }
}
