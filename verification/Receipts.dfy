/** Execution receipts and their per-signer chain (nth_dao/execution_receipt.py).

    A SHA-256 digest is a term over the timeline it hashes, so hashing is injective and
    a digest can never contain itself. A signature is a term over key and message. */
module Receipts {
  import opened Prelude

  /** What a text field meant to hold a hash may hold: nothing, the hex of a digest, or other text. */
  datatype HashText = NoHash | Hex(digest: Digest) | NotHex(text: string)

  datatype Digest = Sha256(timeline: seq<Entry>)

  datatype Payload = Payload(prev: HashText, body: string)

  datatype Entry = Entry(timestamp: nat, kind: string, payload: Payload)

  const CHAIN_LINK := "nth.chain_link"

  datatype Did = NoDid | DidKey(pubkey: string) | OtherText(text: string)

  datatype Signature = NoSig | Ed25519(key: string, message: Digest) | Garbage(text: string)

  /** `issuerSigOk` stands for the token's own shape and signature checks. */
  datatype CapToken = CapToken(
    subject: Did, notBefore: int, notAfter: int, mayReceiptSign: bool, scopeTask: string, issuerSigOk: bool)

  /** `issuedAt` is in microseconds; 0 stands for a missing stamp. */
  datatype Receipt = Receipt(
    id: string, goal: string, signer: Did, signerKey: string, issuedAt: nat,
    timeline: seq<Entry>, contentHash: HashText, sig: Signature, cap: Option<CapToken>)

  // ---------------------------------------------------------------- single receipts

  predicate CapOk(r: Receipt, key: string, cap: CapToken) {
    && r.issuedAt != 0
    && cap.issuerSigOk
    && cap.notBefore <= r.issuedAt / 1000 <= cap.notAfter
    && cap.mayReceiptSign
    && cap.subject == DidKey(key)
    && (cap.scopeTask == "" || cap.scopeTask == r.goal)
  }

  predicate VerifyReceipt(r: Receipt) {
    && r.timeline != []
    && (forall e :: e in r.timeline ==> e.kind != "")
    && r.contentHash == Hex(Sha256(r.timeline))
    && r.signer.DidKey?
    && (r.signerKey == "" || r.signerKey == r.signer.pubkey)
    && r.sig == Ed25519(r.signer.pubkey, Sha256(r.timeline))
    && (r.cap.Some? ==> CapOk(r, r.signer.pubkey, r.cap.value))
  }

  function PrevIn(timeline: seq<Entry>): HashText {
    if timeline == [] || timeline[0].kind != CHAIN_LINK then NoHash else timeline[0].payload.prev
  }

  function PrevHash(r: Receipt): HashText {
    PrevIn(r.timeline)
  }

  // ---------------------------------------------------------------- what "one straight line" means

  /** The first receipt has no predecessor and each later one points at the one before it. */
  predicate Line(order: seq<Receipt>) {
    && order != []
    && PrevHash(order[0]) == NoHash
    && forall i :: 0 < i < |order| ==> PrevHash(order[i]) == order[i - 1].contentHash
  }

  ghost predicate LineOf(order: seq<Receipt>, receipts: seq<Receipt>) {
    Line(order) && multiset(order) == multiset(receipts)
  }

  predicate AllVerify(receipts: seq<Receipt>) {
    forall r :: r in receipts ==> VerifyReceipt(r)
  }

  predicate OneSigner(receipts: seq<Receipt>) {
    receipts != [] && receipts[0].signer != NoDid && forall r :: r in receipts ==> r.signer == receipts[0].signer
  }

  // ---------------------------------------------------------------- the verifier's local checks

  function Genesis(receipts: seq<Receipt>): seq<Receipt> {
    if receipts == [] then []
    else
      var rest := Genesis(receipts[..|receipts| - 1]);
      var last := receipts[|receipts| - 1];
      if PrevHash(last) == NoHash then rest + [last] else rest
  }

  function Pointers(receipts: seq<Receipt>): seq<HashText> {
    if receipts == [] then []
    else
      var rest := Pointers(receipts[..|receipts| - 1]);
      var prev := PrevHash(receipts[|receipts| - 1]);
      if prev == NoHash then rest else rest + [prev]
  }

  function Hashes(receipts: seq<Receipt>): seq<HashText> {
    seq(|receipts|, i requires 0 <= i < |receipts| => receipts[i].contentHash)
  }

  ghost predicate LocalChecks(receipts: seq<Receipt>) {
    && NoDup(Hashes(receipts))
    && |Genesis(receipts)| == 1
    && NoDup(Pointers(receipts))
    && forall p :: p in Pointers(receipts) ==> p in Hashes(receipts)
  }

  /** The content hash is bound to the timeline; the part of verification the chain argument needs. */
  predicate Sealed(r: Receipt) {
    r.contentHash == Hex(Sha256(r.timeline))
  }

  ghost predicate AllSealed(s: set<Receipt>) {
    forall r :: r in s ==> Sealed(r)
  }

  // The same four checks on a set of receipts, where removing one receipt is easy.

  ghost predicate HashesDiffer(s: set<Receipt>) {
    forall r, q {:trigger r.contentHash, q.contentHash} ::
      r in s && q in s && r.contentHash == q.contentHash ==> r == q
  }

  ghost predicate OnlyRoot(s: set<Receipt>, g: Receipt) {
    g in s && forall r :: r in s ==> (PrevHash(r) == NoHash <==> r == g)
  }

  ghost predicate PointersDiffer(s: set<Receipt>) {
    forall r, q {:trigger PrevHash(r), PrevHash(q)} ::
      r in s && q in s && PrevHash(r) == PrevHash(q) != NoHash ==> r == q
  }

  ghost predicate HasPredecessor(s: set<Receipt>, r: Receipt) {
    exists q :: q in s && q.contentHash == PrevHash(r)
  }

  ghost predicate NoOrphan(s: set<Receipt>) {
    forall r {:trigger HasPredecessor(s, r)} :: r in s && PrevHash(r) != NoHash ==> HasPredecessor(s, r)
  }

  ghost predicate SetChecks(s: set<Receipt>) {
    HashesDiffer(s) && (exists g :: OnlyRoot(s, g)) && PointersDiffer(s) && NoOrphan(s)
  }

  lemma HashesDistinct(receipts: seq<Receipt>)
    ensures NoDup(Hashes(receipts)) <==> NoDup(receipts) && HashesDiffer(Elements(receipts))
  {
    var hs := Hashes(receipts);
    if NoDup(hs) {
      forall i, j | 0 <= i < j < |receipts| ensures receipts[i] != receipts[j] {
        assert hs[i] != hs[j];
      }
      forall r, q | r in receipts && q in receipts && r.contentHash == q.contentHash ensures r == q {
        var i :| 0 <= i < |receipts| && receipts[i] == r;
        var j :| 0 <= j < |receipts| && receipts[j] == q;
        assert hs[i] == hs[j];
      }
    } else {
      var i, j :| 0 <= i < j < |hs| && hs[i] == hs[j];
      assert receipts[i] in Elements(receipts) && receipts[j] in Elements(receipts);
      assert receipts[i].contentHash == receipts[j].contentHash;
    }
  }

  lemma {:induction false} GenesisMembers(receipts: seq<Receipt>)
    ensures forall r :: r in Genesis(receipts) <==> r in receipts && PrevHash(r) == NoHash
    ensures NoDup(receipts) ==> NoDup(Genesis(receipts))
  {
    if receipts != [] {
      var init := receipts[..|receipts| - 1];
      GenesisMembers(init);
      assert receipts == init + [receipts[|receipts| - 1]];
    }
  }

  lemma OneGenesis(receipts: seq<Receipt>)
    requires NoDup(receipts)
    ensures |Genesis(receipts)| == 1 <==> exists g :: OnlyRoot(Elements(receipts), g)
  {
    GenesisMembers(receipts);
    var gs, s := Genesis(receipts), Elements(receipts);
    assert |gs| > 1 ==> gs[0] in gs && gs[1] in gs && gs[0] != gs[1];
    assert forall r :: r in gs ==> r in s;
    if |gs| == 1 {
      assert gs[0] in gs;
      forall r | r in s ensures PrevHash(r) == NoHash <==> r == gs[0] {
        assert r in gs <==> r == gs[0];
      }
      assert OnlyRoot(s, gs[0]);
    }
    if g :| OnlyRoot(s, g) {
      assert g in gs;
    }
  }

  lemma {:induction false} PointerMembers(receipts: seq<Receipt>)
    ensures forall p :: p in Pointers(receipts) <==> p != NoHash && exists r :: r in receipts && PrevHash(r) == p
  {
    if receipts != [] {
      var init := receipts[..|receipts| - 1];
      PointerMembers(init);
      assert receipts == init + [receipts[|receipts| - 1]];
    }
  }

  lemma {:induction false} PointersDistinct(receipts: seq<Receipt>)
    requires NoDup(receipts)
    ensures NoDup(Pointers(receipts)) <==> PointersDiffer(Elements(receipts))
  {
    if receipts != [] {
      var init, last := receipts[..|receipts| - 1], receipts[|receipts| - 1];
      assert receipts == init + [last];
      AppendNoDup(init, last);
      PointersDistinct(init);
      PointerMembers(init);
      assert Elements(receipts) == Elements(init) + {last};
      if PrevHash(last) != NoHash {
        AppendNoDup(Pointers(init), PrevHash(last));
        if PrevHash(last) in Pointers(init) {
          var r :| r in init && PrevHash(r) == PrevHash(last);
          assert !PointersDiffer(Elements(receipts));
        }
      }
    }
  }

  lemma PointersResolve(receipts: seq<Receipt>)
    ensures (forall p :: p in Pointers(receipts) ==> p in Hashes(receipts)) <==> NoOrphan(Elements(receipts))
  {
    PointerMembers(receipts);
    var hs, s := Hashes(receipts), Elements(receipts);
    if forall p :: p in Pointers(receipts) ==> p in hs {
      forall r | r in s && PrevHash(r) != NoHash ensures HasPredecessor(s, r) {
        assert PrevHash(r) in hs;
        var i :| 0 <= i < |hs| && hs[i] == PrevHash(r);
        assert receipts[i] in s;
      }
    }
    if NoOrphan(s) {
      forall p | p in Pointers(receipts) ensures p in hs {
        var r :| r in receipts && PrevHash(r) == p;
        assert HasPredecessor(s, r);
        var q :| q in s && q.contentHash == PrevHash(r);
        var i :| 0 <= i < |receipts| && receipts[i] == q;
        assert hs[i] == p;
      }
    }
  }

  lemma LocalChecksOnSet(receipts: seq<Receipt>)
    ensures LocalChecks(receipts) <==> NoDup(receipts) && SetChecks(Elements(receipts))
  {
    HashesDistinct(receipts);
    if NoDup(receipts) {
      OneGenesis(receipts);
      PointersDistinct(receipts);
      PointersResolve(receipts);
    }
  }

  // ---------------------------------------------------------------- the checks mean "one straight line"

  /** How many links a digest has below it; finite because a digest is a finite term. */
  function Rank(d: Digest): nat {
    match PrevIn(d.timeline)
    case Hex(p) => 1 + Rank(p)
    case _ => 0
  }

  function RankOf(r: Receipt): nat {
    Rank(Sha256(r.timeline))
  }

  lemma LinkRank(r: Receipt, q: Receipt)
    requires Sealed(q) && PrevHash(r) == q.contentHash
    ensures RankOf(r) == RankOf(q) + 1
  {
    assert PrevIn(Sha256(r.timeline).timeline) == Hex(Sha256(q.timeline));
  }

  lemma {:induction false} LineRanks(order: seq<Receipt>, i: nat)
    requires Line(order) && AllSealed(Elements(order)) && i < |order|
    ensures RankOf(order[i]) == i
  {
    if i > 0 {
      LineRanks(order, i - 1);
      assert order[i - 1] in Elements(order);
      LinkRank(order[i], order[i - 1]);
    } else {
      assert PrevIn(Sha256(order[0].timeline).timeline) == NoHash;
    }
  }

  lemma {:induction false} HighestRank(s: set<Receipt>) returns (m: Receipt)
    requires s != {}
    ensures m in s && forall r :: r in s ==> RankOf(r) <= RankOf(m)
    decreases s
  {
    m :| m in s;
    if s != {m} {
      var n := HighestRank(s - {m});
      if RankOf(n) > RankOf(m) {
        m := n;
      } else {
        assert forall r :: r in s ==> r == m || r in s - {m};
      }
    }
  }

  lemma HighestIsNotRoot(s: set<Receipt>, g: Receipt, m: Receipt)
    requires OnlyRoot(s, g) && NoOrphan(s) && AllSealed(s) && s != {m}
    requires m in s && forall r :: r in s ==> RankOf(r) <= RankOf(m)
    ensures m != g
  {
    assert PrevHash(m) == NoHash ==> RankOf(m) == 0;
    var r :| r in s && r != m;
    if r != g {
      assert HasPredecessor(s, r);
      var q :| q in s && q.contentHash == PrevHash(r);
      LinkRank(r, q);
    }
  }

  lemma WithoutHighest(s: set<Receipt>, m: Receipt)
    requires NoOrphan(s) && AllSealed(s) && m in s && forall r :: r in s ==> RankOf(r) <= RankOf(m)
    ensures NoOrphan(s - {m})
  {
    forall r | r in s - {m} && PrevHash(r) != NoHash ensures HasPredecessor(s - {m}, r) {
      assert HasPredecessor(s, r);
      var q :| q in s && q.contentHash == PrevHash(r);
      LinkRank(r, q);
      assert q in s - {m};
    }
  }

  lemma {:induction false} ChecksGiveLine(s: set<Receipt>) returns (order: seq<Receipt>)
    requires SetChecks(s) && AllSealed(s)
    ensures Line(order) && Elements(order) == s && NoDup(order)
    decreases s
  {
    var g :| OnlyRoot(s, g);
    var m := HighestRank(s);
    if s == {m} {
      order := [m];
    } else {
      HighestIsNotRoot(s, g, m);
      WithoutHighest(s, m);
      assert OnlyRoot(s - {m}, g);
      var shorter := ChecksGiveLine(s - {m});
      HighestGoesLast(s, m, shorter);
      order := LineGrows(s, m, shorter);
    }
  }

  lemma LineGrows(s: set<Receipt>, m: Receipt, shorter: seq<Receipt>) returns (order: seq<Receipt>)
    requires Line(shorter) && NoDup(shorter) && Elements(shorter) == s - {m} && m in s
    requires PrevHash(m) == shorter[|shorter| - 1].contentHash
    ensures Line(order) && Elements(order) == s && NoDup(order)
  {
    order := shorter + [m];
    assert m !in Elements(shorter);
    AppendNoDup(shorter, m);
    assert Elements(order) == Elements(shorter) + {m};
  }

  lemma NextPointsBack(order: seq<Receipt>, k: nat)
    requires Line(order) && k < |order|
    ensures k < |order| - 1 ==> PrevHash(order[k + 1]) == order[k].contentHash && order[k + 1] in Elements(order)
  {
  }

  lemma HighestGoesLast(s: set<Receipt>, m: Receipt, shorter: seq<Receipt>)
    requires NoOrphan(s) && PointersDiffer(s) && AllSealed(s) && m in s && PrevHash(m) != NoHash
    requires Line(shorter) && Elements(shorter) == s - {m}
    ensures PrevHash(m) == shorter[|shorter| - 1].contentHash
  {
    assert HasPredecessor(s, m);
    var p :| p in s && p.contentHash == PrevHash(m);
    LinkRank(m, p);
    assert p in Elements(shorter);
    var k :| 0 <= k < |shorter| && shorter[k] == p;
    NextPointsBack(shorter, k);
  }

  lemma LineIndex(order: seq<Receipt>, r: Receipt) returns (i: nat)
    requires Line(order) && AllSealed(Elements(order)) && r in Elements(order)
    ensures i < |order| && order[i] == r && RankOf(r) == i && Sealed(r)
    ensures PrevHash(r) == NoHash <==> i == 0
    ensures i > 0 ==> PrevHash(r) == order[i - 1].contentHash && order[i - 1] in Elements(order)
  {
    i :| 0 <= i < |order| && order[i] == r;
    LineRanks(order, i);
    if i > 0 {
      assert order[i - 1] in Elements(order);
    }
  }

  lemma LineNoDup(order: seq<Receipt>)
    requires Line(order) && AllSealed(Elements(order))
    ensures NoDup(order)
  {
    forall i, j | 0 <= i < j < |order| ensures order[i] != order[j] {
      LineRanks(order, i);
      LineRanks(order, j);
    }
  }

  lemma LineGivesChecks(order: seq<Receipt>)
    requires Line(order) && AllSealed(Elements(order))
    ensures SetChecks(Elements(order))
  {
    var s := Elements(order);
    forall r, q | r in s && q in s && r.contentHash == q.contentHash ensures r == q {
      var i := LineIndex(order, r);
      var j := LineIndex(order, q);
    }
    forall r | r in s ensures PrevHash(r) == NoHash <==> r == order[0] {
      var i := LineIndex(order, r);
    }
    assert OnlyRoot(s, order[0]);
    forall r, q | r in s && q in s && PrevHash(r) == PrevHash(q) != NoHash ensures r == q {
      var i := LineIndex(order, r);
      var j := LineIndex(order, q);
      LinkRank(r, order[i - 1]);
      LinkRank(q, order[j - 1]);
    }
    forall r | r in s && PrevHash(r) != NoHash ensures HasPredecessor(s, r) {
      var i := LineIndex(order, r);
    }
  }

  lemma LineIsUnique(o1: seq<Receipt>, o2: seq<Receipt>)
    requires Line(o1) && Line(o2) && AllSealed(Elements(o1)) && multiset(o1) == multiset(o2)
    ensures o1 == o2
  {
    PermutationElements(o1, o2);
    forall i | 0 <= i < |o1| ensures o1[i] == o2[i] {
      LineRanks(o1, i);
      assert o1[i] in Elements(o1);
      var j := LineIndex(o2, o1[i]);
    }
  }

  lemma VerifiedIsSealed(receipts: seq<Receipt>)
    requires AllVerify(receipts)
    ensures AllSealed(Elements(receipts))
  {
  }

  /** The local checks accept exactly the sets of receipts that lie on one straight line,
      whatever the input order, and that line is unique. */
  lemma LocalChecksIffOneLine(receipts: seq<Receipt>)
    requires AllSealed(Elements(receipts))
    ensures LocalChecks(receipts) <==> exists order :: LineOf(order, receipts)
    ensures forall o1, o2 :: LineOf(o1, receipts) && LineOf(o2, receipts) ==> o1 == o2
  {
    LocalChecksOnSet(receipts);
    if LocalChecks(receipts) {
      var order := ChecksGiveLine(Elements(receipts));
      NoDupMultiset(order);
      NoDupMultiset(receipts);
      assert LineOf(order, receipts);
    }
    forall order | LineOf(order, receipts) ensures LocalChecks(receipts) {
      LineMeansChecks(order, receipts);
    }
    forall o1, o2 | LineOf(o1, receipts) && LineOf(o2, receipts) ensures o1 == o2 {
      PermutationElements(o1, receipts);
      LineIsUnique(o1, o2);
    }
  }

  lemma LineMeansChecks(order: seq<Receipt>, receipts: seq<Receipt>)
    requires AllSealed(Elements(receipts)) && LineOf(order, receipts)
    ensures NoDup(receipts) && SetChecks(Elements(receipts))
  {
    PermutationElements(order, receipts);
    LineGivesChecks(order);
    LineNoDup(order);
    SetSizeDetectsDuplicates(order);
    SetSizeDetectsDuplicates(receipts);
  }

  /** What the chain verifier promises. */
  ghost predicate Accepted(receipts: seq<Receipt>) {
    OneSigner(receipts) && AllVerify(receipts) && exists order :: LineOf(order, receipts)
  }

  method VerifyReceiptChain(receipts: seq<Receipt>) returns (ok: bool)
    ensures ok <==> Accepted(receipts)
  {
    if receipts == [] {
      return false;
    }
    var signers := set r | r in receipts :: r.signer;
    SignersAgree(receipts, signers);
    if |signers| != 1 || NoDid in signers {
      return false;
    }
    for i := 0 to |receipts|
      invariant forall j :: 0 <= j < i ==> VerifyReceipt(receipts[j])
    {
      if !VerifyReceipt(receipts[i]) {
        assert receipts[i] in receipts;
        return false;
      }
    }
    VerifiedIsSealed(receipts);
    LocalChecksIffOneLine(receipts);
    ok := CheckLinks(receipts);
  }

  /** The second half of the verifier: duplicates, genesis count, forks and orphans. */
  method CheckLinks(receipts: seq<Receipt>) returns (ok: bool)
    ensures ok <==> LocalChecks(receipts)
  {
    SetSizeDetectsDuplicates(Hashes(receipts));
    var byHash := Elements(Hashes(receipts));
    if |byHash| != |receipts| {
      return false;
    }
    var genesis: seq<Receipt>, pointers: seq<HashText> := [], [];
    for i := 0 to |receipts|
      invariant genesis == Genesis(receipts[..i]) && pointers == Pointers(receipts[..i])
    {
      assert receipts[..i + 1][..i] == receipts[..i];
      var prev := PrevHash(receipts[i]);
      if prev == NoHash {
        genesis := genesis + [receipts[i]];
      } else {
        pointers := pointers + [prev];
      }
    }
    assert receipts[..|receipts|] == receipts;
    if |genesis| != 1 {
      return false;
    }
    SetSizeDetectsDuplicates(pointers);
    if |Elements(pointers)| != |pointers| {
      return false;
    }
    for i := 0 to |pointers|
      invariant forall j :: 0 <= j < i ==> pointers[j] in Hashes(receipts)
    {
      if pointers[i] !in byHash {
        return false;
      }
    }
    return true;
  }

  lemma SignersAgree(receipts: seq<Receipt>, signers: set<Did>)
    requires receipts != [] && signers == set r | r in receipts :: r.signer
    ensures |signers| == 1 && NoDid !in signers <==> OneSigner(receipts)
  {
    var d := receipts[0].signer;
    assert receipts[0] in receipts && d in signers;
    if |signers| == 1 {
      assert |signers - {d}| == 0;
      assert signers == {d};
      assert forall r :: r in receipts ==> r.signer in signers;
    }
    if forall r :: r in receipts ==> r.signer == d {
      assert signers == {d};
    }
  }

  function RemoveAt(receipts: seq<Receipt>, i: nat): seq<Receipt>
    requires i < |receipts|
  {
    receipts[..i] + receipts[i + 1..]
  }

  lemma RemovalFacts(receipts: seq<Receipt>, i: nat)
    requires i < |receipts|
    ensures multiset(receipts) == multiset(RemoveAt(receipts, i)) + multiset{receipts[i]}
    ensures NoDup(receipts) ==> Elements(RemoveAt(receipts, i)) == Elements(receipts) - {receipts[i]}
  {
    var rest := RemoveAt(receipts, i);
    assert receipts == receipts[..i] + [receipts[i]] + receipts[i + 1..];
    assert forall x :: x in receipts <==> x in receipts[..i] || x == receipts[i] || x in receipts[i + 1..];
  }

  lemma RemovalKeepsValidity(receipts: seq<Receipt>, i: nat)
    requires OneSigner(receipts) && AllVerify(receipts) && i < |receipts| && |receipts| > 1
    ensures OneSigner(RemoveAt(receipts, i)) && AllVerify(RemoveAt(receipts, i))
  {
    var rest := RemoveAt(receipts, i);
    assert rest[0] in rest;
    assert forall r :: r in rest ==> r in receipts;
  }

  lemma ShorterLine(order: seq<Receipt>)
    requires Line(order) && |order| > 1
    ensures Line(order[..|order| - 1]) && multiset(order[..|order| - 1]) == multiset(order) - multiset{order[|order| - 1]}
  {
    var shorter := order[..|order| - 1];
    assert order == shorter + [order[|order| - 1]];
    forall i | 0 < i < |shorter| ensures PrevHash(shorter[i]) == shorter[i - 1].contentHash {
      assert PrevHash(order[i]) == order[i - 1].contentHash;
    }
  }

  lemma WithoutNewest(receipts: seq<Receipt>, order: seq<Receipt>, i: nat)
    requires LineOf(order, receipts) && i < |receipts| && |receipts| > 1 && receipts[i] == order[|order| - 1]
    ensures exists shorter :: LineOf(shorter, RemoveAt(receipts, i))
  {
    PermutationElements(order, receipts);
    RemovalFacts(receipts, i);
    ShorterLine(order);
    assert LineOf(order[..|order| - 1], RemoveAt(receipts, i));
  }

  lemma WithoutInner(receipts: seq<Receipt>, order: seq<Receipt>, i: nat)
    requires LineOf(order, receipts) && AllSealed(Elements(receipts))
    requires i < |receipts| && receipts[i] != order[|order| - 1]
    ensures !LocalChecks(RemoveAt(receipts, i))
  {
    PermutationElements(order, receipts);
    LineMeansChecks(order, receipts);
    RemovalFacts(receipts, i);
    assert receipts[i] in Elements(receipts);
    InnerOmissionOrphans(order, receipts[i]);
    LocalChecksOnSet(RemoveAt(receipts, i));
  }

  /** Dropping a receipt from an accepted history is detected unless it is the newest one. */
  lemma OmissionIsDetected(receipts: seq<Receipt>, order: seq<Receipt>, i: nat)
    requires Accepted(receipts) && LineOf(order, receipts) && i < |receipts|
    ensures Accepted(RemoveAt(receipts, i)) <==> |receipts| > 1 && receipts[i] == order[|order| - 1]
  {
    VerifiedIsSealed(receipts);
    if |receipts| > 1 {
      RemovalKeepsValidity(receipts, i);
      if receipts[i] == order[|order| - 1] {
        WithoutNewest(receipts, order, i);
      } else {
        WithoutInner(receipts, order, i);
        VerifiedIsSealed(RemoveAt(receipts, i));
        LocalChecksIffOneLine(RemoveAt(receipts, i));
      }
    }
  }

  lemma InnerOmissionOrphans(order: seq<Receipt>, r: Receipt)
    requires Line(order) && AllSealed(Elements(order)) && r in Elements(order) && r != order[|order| - 1]
    ensures !NoOrphan(Elements(order) - {r})
  {
    var k := LineIndex(order, r);
    var next := order[k + 1];
    var j := LineIndex(order, next);
    var s := Elements(order) - {r};
    assert next in s && PrevHash(next) != NoHash;
    LineGivesChecks(order);
    assert !HasPredecessor(s, next);
  }
}
