/** Signed action dispatch: freshness window, shared nonce ledger, LRU response cache (nth_dao/action_routing.py). */
module ActionRouting {
  import opened Prelude

  /** The request's timestamp: absent, unparseable, without a timezone, or an absolute instant in seconds. */
  datatype Stamp = NoStamp | Malformed | Naive | At(t: real)

  datatype Request = Request(id: string, action: string, from: string, target: string, params: string, stamp: Stamp, sig: string)

  datatype Key = Key(from: string, id: string)

  datatype Status = Rejected | Failed | Completed

  datatype Response = Response(status: Status, text: string)

  /** `verified` is production mode: an identity and a key directory are configured. */
  datatype Config = Config(agent: string, verified: bool, ledgerOn: bool, ttl: real, skew: real, maxDedup: nat)

  /** The three clock readings of one delivery: freshness test, ledger sweep, recorded reservation. */
  datatype Clocks = Clocks(checked: real, swept: real, recorded: real)

  function KeyOf(q: Request): Key {
    Key(q.from, q.id)
  }

  function NonceKey(k: Key): string {
    k.from + "|" + k.id
  }

  // ---------------------------------------------------------------- freshness and the nonce ledger

  predicate IsFresh(c: Config, q: Request, now: real) {
    match q.stamp
    case NoStamp => true
    case Malformed => false
    case Naive => false
    case At(t) => -c.skew <= now - t <= c.ttl
  }

  /** Entries older than the horizon are dropped whenever the ledger is loaded. */
  function Sweep(ledger: map<string, real>, horizon: real, now: real): map<string, real> {
    map k | k in ledger && ledger[k] >= now - horizon :: ledger[k]
  }

  function Reserve(ledger: map<string, real>, key: string, horizon: real, at: Clocks): Option<map<string, real>> {
    var kept := Sweep(ledger, horizon, at.swept);
    if key in kept then None else Some(kept[key := at.recorded])
  }

  /** The gates a request passes before any handler can run; None is a rejection, Some the ledger afterwards. */
  function Admit(c: Config, horizon: real, verifies: bool, ledger: map<string, real>, q: Request, at: Clocks)
    : Option<map<string, real>>
  {
    if q.target != "" && q.target != c.agent then None
    else if c.verified && !verifies then None
    else if c.verified && c.ttl > 0.0 && !IsFresh(c, q, at.checked) then None
    else if c.ledgerOn && c.verified then Reserve(ledger, NonceKey(KeyOf(q)), horizon, at)
    else Some(ledger)
  }

  /** The request names this agent or nobody. */
  predicate ForUs(c: Config, q: Request) {
    q.target in {"", c.agent}
  }

  /** Not older than ttl, not further ahead than the skew; a request without a timestamp passes, one that does not parse
      or lacks a timezone does not. */
  predicate InTime(c: Config, q: Request, now: real) {
    match q.stamp case At(t) => now - c.ttl <= t <= now + c.skew case s => s == NoStamp
  }

  /** The nonce is recorded and not yet older than the horizon. */
  predicate InForce(ledger: map<string, real>, key: string, horizon: real, now: real) {
    key in ledger && now <= ledger[key] + horizon
  }

  /** Who is admitted, in every mode: without verification everyone who is for us, whatever the signature, stamp and
      ledger say; with it, who is signed and, if a ttl is set, in time and, if the ledger is on, new to it. Only a
      verifying router with a ledger changes the ledger: it forgets what is out of force and adds the nonce. */
  lemma AdmitIff(c: Config, horizon: real, verifies: bool, ledger: map<string, real>, q: Request, at: Clocks)
    ensures var key := NonceKey(KeyOf(q));
            Admit(c, horizon, verifies, ledger, q, at).Some? <==>
            && ForUs(c, q)
            && (c.verified ==> verifies && (c.ttl > 0.0 ==> InTime(c, q, at.checked)))
            && (c.verified && c.ledgerOn ==> !InForce(ledger, key, horizon, at.swept))
    ensures Admit(c, horizon, verifies, ledger, q, at).Some? && !(c.verified && c.ledgerOn) ==>
              Admit(c, horizon, verifies, ledger, q, at).value == ledger
    ensures Admit(c, horizon, verifies, ledger, q, at).Some? && c.verified && c.ledgerOn ==>
              var after, key := Admit(c, horizon, verifies, ledger, q, at).value, NonceKey(KeyOf(q));
              && (forall k :: k in after <==> k == key || InForce(ledger, k, horizon, at.swept))
              && forall k :: k in after ==> after[k] == if k == key then at.recorded else ledger[k]
  {
  }

  /** Without verification or without the ledger nothing is remembered: a request admitted once is admitted again, at
      the same reading and from the same ledger, any number of times. */
  lemma WithoutLedgerRepeats(c: Config, horizon: real, verifies: bool, ledger: map<string, real>, q: Request, at: Clocks)
    requires !(c.verified && c.ledgerOn) && Admit(c, horizon, verifies, ledger, q, at).Some?
    ensures Admit(c, horizon, verifies, Admit(c, horizon, verifies, ledger, q, at).value, q, at) == Some(ledger)
  {
    AdmitIff(c, horizon, verifies, ledger, q, at);
  }

  // ---------------------------------------------------------------- the response cache

  datatype Cached = Cached(key: Key, response: Response)

  function Lookup(cache: seq<Cached>, key: Key): Option<Response> {
    if cache == [] then None
    else if cache[|cache| - 1].key == key then Some(cache[|cache| - 1].response)
    else Lookup(cache[..|cache| - 1], key)
  }

  function Without(cache: seq<Cached>, key: Key): seq<Cached> {
    if cache == [] then []
    else Without(cache[..|cache| - 1], key) + if cache[|cache| - 1].key == key then [] else [cache[|cache| - 1]]
  }

  /** Insert or refresh at the most recent end, evicting from the other end. */
  function Put(cache: seq<Cached>, key: Key, response: Response, max: nat): seq<Cached> {
    LastN(max, Without(cache, key) + [Cached(key, response)])
  }

  // ---------------------------------------------------------------- the router

  /** The ledger file shared by every router of a workspace. */
  class NonceFile {
    var entries: map<string, real>

    constructor ()
      ensures entries == map[]
    {
      entries := map[];
    }
  }

  class ActionRouter {
    const config: Config
    /** Signature check against the claimed sender's key. */
    const verifies: Request -> bool
    var handlers: map<string, Request -> Result<string>>
    var cache: seq<Cached>
    /** Every admitted use so far with its answer. */
    ghost var uses: seq<Key>
    ghost var answers: seq<Response>

    constructor (config: Config, verifies: Request -> bool)
      requires config.maxDedup > 0
      ensures Valid() && this.config == config && this.verifies == verifies && handlers == map[] && cache == []
      ensures uses == []
    {
      this.config, this.verifies, handlers, cache := config, verifies, map[], [];
      uses, answers := [], [];
    }

    ghost predicate Valid()
      reads this
    {
      config.maxDedup > 0 && |uses| == |answers| && cache == CacheAfter(uses, answers, config.maxDedup)
    }

    function Execute(q: Request): Response
      reads this
    {
      if q.action !in handlers then Response(Failed, "no handler registered")
      else match handlers[q.action](q)
           case Ok(v) => Response(Completed, v)
           case Err(e) => Response(Failed, e)
    }

    /** The workspace as this router sees it: the shared ledger, itself, and the others as they are. */
    ghost function Placed(file: NonceFile, id: nat, others: map<nat, Node>): Workspace
      reads this, file
    {
      Workspace(file.entries, others[id := Node(handlers, cache)])
    }

    /** Gates, then cache, then handler: one step of the workspace. `ran` says whether a registered handler was invoked. */
    method Handle(q: Request, file: NonceFile, at: Clocks) returns (r: Response, ran: bool)
      requires Valid() && at.checked <= at.swept <= at.recorded
      modifies this`cache, this`uses, this`answers, file
      ensures Valid()
      ensures var admitted := Admit(config, config.ttl + config.skew, verifies(q), old(file.entries), q, at);
              && (admitted.None? ==> r.status == Rejected && !ran && cache == old(cache) && uses == old(uses) && file.entries == old(file.entries))
              && (admitted.Some? ==>
                   && file.entries == admitted.value
                   && var hit := Lookup(old(cache), KeyOf(q));
                      && r == (if hit.Some? then hit.value else old(Execute(q)))
                      && (ran <==> hit.None? && q.action in handlers)
                      && cache == Put(old(cache), KeyOf(q), r, config.maxDedup)
                      && uses == old(uses) + [KeyOf(q)])
      ensures handlers == old(handlers)
      ensures Admit(config, config.ttl + config.skew, verifies(q), old(file.entries), q, at).Some? && Lookup(old(cache), KeyOf(q)).None? ==>
                && (r.status == Completed <==> q.action in handlers && handlers[q.action](q).Ok?)
                && (r.status == Completed ==> handlers[q.action](q) == Ok(r.text))
                && (r.status != Completed ==> r.status == Failed && (q.action in handlers ==> handlers[q.action](q) == Err(r.text)))
      ensures forall id, others ::
        Handles(config.ttl + config.skew, old(Placed(file, id, others)), id, Delivery(config, q, verifies(q), at), r, ran, Placed(file, id, others))
    {
      var refused := Gate(q, file, at);
      if refused.Some? {
        return Response(Rejected, refused.value), false;
      }
      r, ran := Respond(q);
    }

    /** Target, signature, freshness and nonce; the reason is given on a refusal. */
    method Gate(q: Request, file: NonceFile, at: Clocks) returns (refused: Option<string>)
      modifies file
      ensures var admitted := Admit(config, config.ttl + config.skew, verifies(q), old(file.entries), q, at);
              refused.None? == admitted.Some? && file.entries == admitted.Or(old(file.entries))
    {
      if q.target != "" && q.target != config.agent {
        return Some("misdirected");
      }
      if config.verified && !verifies(q) {
        return Some("signature verification failed");
      }
      if config.verified && config.ttl > 0.0 && !IsFresh(config, q, at.checked) {
        return Some("request expired or from the future");
      }
      if config.ledgerOn && config.verified {
        var reserved := Reserve(file.entries, NonceKey(KeyOf(q)), config.ttl + config.skew, at);
        if reserved.None? {
          return Some("replay detected");
        }
        file.entries := reserved.value;
      }
      return None;
    }

    /** Answer from the cache, or run the handler and remember its answer. */
    method Respond(q: Request) returns (r: Response, ran: bool)
      requires Valid()
      modifies this`cache, this`uses, this`answers
      ensures Valid() && uses == old(uses) + [KeyOf(q)]
      ensures var hit := Lookup(old(cache), KeyOf(q));
              && r == (if hit.Some? then hit.value else old(Execute(q)))
              && (ran <==> hit.None? && q.action in handlers)
      ensures cache == Put(old(cache), KeyOf(q), r, config.maxDedup)
    {
      var hit := Lookup(cache, KeyOf(q));
      ran := hit.None? && q.action in handlers;
      r := if hit.Some? then hit.value else Execute(q);
      CacheNext(uses, answers, KeyOf(q), r, config.maxDedup);
      if hit.Some? {
        TouchFits(cache, KeyOf(q));
        CacheFits(uses, answers, config.maxDedup);
        cache := Without(cache, KeyOf(q)) + [Cached(KeyOf(q), r)];   // moved to the recent end, nothing evicted
      } else {
        cache := Put(cache, KeyOf(q), r, config.maxDedup);
      }
      uses, answers := uses + [KeyOf(q)], answers + [r];
    }

    /** At every moment the cache holds exactly the most recently used distinct keys, in recency order. */
    lemma HoldsMostRecent()
      requires Valid()
      ensures Keys(cache) == LastN(config.maxDedup, Recency(uses))
    {
      CacheIsMostRecent(uses, answers, config.maxDedup);
    }
  }

  /** Refreshing a cached key never grows the cache, so moving to the end needs no eviction. */
  lemma {:induction false} TouchFits(cache: seq<Cached>, key: Key)
    requires Lookup(cache, key).Some?
    ensures |Without(cache, key)| < |cache|
  {
    WithoutShrinks(cache[..|cache| - 1], key);
    if cache[|cache| - 1].key != key {
      TouchFits(cache[..|cache| - 1], key);
    }
  }

  lemma {:induction false} WithoutShrinks(cache: seq<Cached>, key: Key)
    ensures |Without(cache, key)| <= |cache|
  {
    if cache != [] {
      WithoutShrinks(cache[..|cache| - 1], key);
    }
  }

  // ---------------------------------------------------------------- at most once, over all routers of a workspace

  datatype Delivery = Delivery(c: Config, q: Request, verifies: bool, at: Clocks)

  /** Equal settings with a positive ttl, the ledger on, and at most `pause` between the clock reading of the
      freshness test and that of the sweep. */
  predicate Sound(ttl: real, skew: real, pause: real, d: Delivery) {
    && ttl > 0.0 && skew >= 0.0
    && d.c.verified && d.c.ledgerOn && d.c.ttl == ttl && d.c.skew == skew
    && d.at.checked <= d.at.swept <= d.at.checked + pause && d.at.swept <= d.at.recorded
  }

  ghost predicate AllSound(ttl: real, skew: real, pause: real, ds: seq<Delivery>) {
    forall i :: 0 <= i < |ds| ==> Sound(ttl, skew, pause, ds[i])
  }

  function Decision(horizon: real, ledger: map<string, real>, d: Delivery): Option<map<string, real>> {
    Admit(d.c, horizon, d.verifies, ledger, d.q, d.at)
  }

  predicate StepAt(horizon: real, ledgers: seq<map<string, real>>, ds: seq<Delivery>, i: nat)
    requires i < |ds| && i + 1 < |ledgers|
  {
    ledgers[i + 1] == Decision(horizon, ledgers[i], ds[i]).Or(ledgers[i])
  }

  /** Ledgers before and after each delivery; the lock orders deliveries by their sweep reading. */
  ghost predicate Run(horizon: real, ledgers: seq<map<string, real>>, ds: seq<Delivery>) {
    && |ledgers| == |ds| + 1
    && (forall i :: 0 <= i < |ds| ==> StepAt(horizon, ledgers, ds, i))
    && forall i, j :: 0 <= i < j < |ds| ==> ds[i].at.swept <= ds[j].at.swept
  }

  predicate Admitted(horizon: real, ledgers: seq<map<string, real>>, ds: seq<Delivery>, i: nat)
    requires i < |ds| && i < |ledgers|
  {
    Decision(horizon, ledgers[i], ds[i]).Some?
  }

  /** Once admitted, a request stays in the ledger or its window has closed for good, for every router that
      sweeps at most `pause` after its freshness test. */
  predicate Guarded(ttl: real, skew: real, pause: real, ledger: map<string, real>, q: Request, now: real)
    requires q.stamp.At?
  {
    var key := NonceKey(KeyOf(q));
    (key in ledger && ledger[key] >= q.stamp.t - skew) || now > q.stamp.t + ttl + pause
  }

  lemma StepKeepsGuard(horizon: real, ttl: real, skew: real, pause: real, ledger: map<string, real>, q: Request, now: real, d: Delivery)
    requires Sound(ttl, skew, pause, d) && horizon >= ttl + skew + pause && q.stamp.At?
    requires Guarded(ttl, skew, pause, ledger, q, now) && now <= d.at.swept
    ensures Guarded(ttl, skew, pause, Decision(horizon, ledger, d).Or(ledger), q, d.at.swept)
    ensures d.q == q ==> Decision(horizon, ledger, d).None?
  {
  }

  lemma AdmissionGuards(horizon: real, ttl: real, skew: real, pause: real, ledger: map<string, real>, d: Delivery)
    requires Sound(ttl, skew, pause, d) && d.q.stamp.At? && Decision(horizon, ledger, d).Some?
    ensures Guarded(ttl, skew, pause, Decision(horizon, ledger, d).value, d.q, d.at.swept)
  {
  }

  lemma {:induction false} GuardLasts(
    horizon: real, ttl: real, skew: real, pause: real, ledgers: seq<map<string, real>>, ds: seq<Delivery>, i: nat, j: nat)
    requires Run(horizon, ledgers, ds) && AllSound(ttl, skew, pause, ds) && horizon >= ttl + skew + pause
    requires i < j <= |ds| && ds[i].q.stamp.At? && Admitted(horizon, ledgers, ds, i)
    ensures Guarded(ttl, skew, pause, ledgers[j], ds[i].q, ds[j - 1].at.swept)
  {
    assert StepAt(horizon, ledgers, ds, j - 1);
    if j == i + 1 {
      AdmissionGuards(horizon, ttl, skew, pause, ledgers[i], ds[i]);
    } else {
      GuardLasts(horizon, ttl, skew, pause, ledgers, ds, i, j - 1);
      StepKeepsGuard(horizon, ttl, skew, pause, ledgers[j - 1], ds[i].q, ds[j - 2].at.swept, ds[j - 1]);
    }
  }

  /** From any ledger, any number of routers sharing a workspace admit a timestamped request at most once ever,
      although its nonce is dropped, as long as the horizon covers ttl, skew and the pause. */
  lemma AdmittedAtMostOnce(
    horizon: real, ttl: real, skew: real, pause: real, ledgers: seq<map<string, real>>, ds: seq<Delivery>, i: nat, j: nat)
    requires Run(horizon, ledgers, ds) && AllSound(ttl, skew, pause, ds) && horizon >= ttl + skew + pause
    requires i < j < |ds| && ds[i].q == ds[j].q && ds[i].q.stamp.At? && Admitted(horizon, ledgers, ds, i)
    ensures !Admitted(horizon, ledgers, ds, j)
  {
    GuardLasts(horizon, ttl, skew, pause, ledgers, ds, i, j);
    StepKeepsGuard(horizon, ttl, skew, pause, ledgers[j], ds[i].q, ds[j - 1].at.swept, ds[j]);
  }

  /** Some run of sound routers, of any length and from an empty ledger, admits one timestamped request twice. */
  ghost predicate ReplayPossible(horizon: real, ttl: real, skew: real, pause: real) {
    exists ledgers: seq<map<string, real>>, ds: seq<Delivery>, i: nat, j: nat ::
      && Run(horizon, ledgers, ds) && AllSound(ttl, skew, pause, ds) && ledgers[0] == map[]
      && i < j < |ds| && ds[i].q == ds[j].q && ds[i].q.stamp.At?
      && Admitted(horizon, ledgers, ds, i) && Admitted(horizon, ledgers, ds, j)
  }

  function Probe(ttl: real, skew: real, q: Request, at: Clocks): Delivery {
    Delivery(Config("a", true, true, ttl, skew, 1), q, true, at)
  }

  /** The first delivery at the earliest fresh moment, the second at the latest one. */
  lemma TightReplay(horizon: real, ttl: real, skew: real, pause: real)
    requires ttl > 0.0 && skew >= 0.0 && pause >= 0.0 && horizon < ttl + skew + pause
    ensures ReplayPossible(horizon, ttl, skew, pause)
  {
    var q := Request("r", "x", "s", "", "", At(0.0), "");
    var d0 := Probe(ttl, skew, q, Clocks(-skew, -skew, -skew));
    var d1 := Probe(ttl, skew, q, Clocks(ttl, ttl + pause, ttl + pause));
    var l0: map<string, real> := map[];
    assert Decision(horizon, l0, d0).Some?;
    var l1 := Decision(horizon, l0, d0).value;
    assert l1 == map[NonceKey(KeyOf(q)) := -skew];
    assert Decision(horizon, l1, d1).Some?;
    var ledgers, ds := [l0, l1, Decision(horizon, l1, d1).value], [d0, d1];
    assert StepAt(horizon, ledgers, ds, 0) && StepAt(horizon, ledgers, ds, 1);
    assert Run(horizon, ledgers, ds) && AllSound(ttl, skew, pause, ds);
    assert Admitted(horizon, ledgers, ds, 0) && Admitted(horizon, ledgers, ds, 1);
  }

  /** How long nonces must be kept: a replay is possible exactly when the horizon is shorter than ttl + skew plus
      the longest pause between a router's freshness test and its sweep. */
  lemma HorizonIsExact(horizon: real, ttl: real, skew: real, pause: real)
    requires ttl > 0.0 && skew >= 0.0 && pause >= 0.0
    ensures ReplayPossible(horizon, ttl, skew, pause) <==> horizon < ttl + skew + pause
  {
    if horizon < ttl + skew + pause {
      TightReplay(horizon, ttl, skew, pause);
    } else {
      forall ledgers: seq<map<string, real>>, ds: seq<Delivery>, i: nat, j: nat |
        && Run(horizon, ledgers, ds) && AllSound(ttl, skew, pause, ds)
        && i < j < |ds| && ds[i].q == ds[j].q && ds[i].q.stamp.At? && Admitted(horizon, ledgers, ds, i)
        ensures !Admitted(horizon, ledgers, ds, j)
      {
        AdmittedAtMostOnce(horizon, ttl, skew, pause, ledgers, ds, i, j);
      }
    }
  }

  /** The code keeps nonces for ttl + skew, so its protection is complete exactly when there is no pause. */
  lemma CodeIsSafeIff(ttl: real, skew: real, pause: real)
    requires ttl > 0.0 && skew >= 0.0 && pause >= 0.0
    ensures ReplayPossible(ttl + skew, ttl, skew, pause) <==> pause > 0.0
  {
    HorizonIsExact(ttl + skew, ttl, skew, pause);
  }

  // ---------------------------------------------------------------- when exactly a second delivery gets through

  /** Target and signature: the gates that depend on neither clock nor ledger. */
  predicate Addressed(d: Delivery) {
    (d.q.target == "" || d.q.target == d.c.agent) && d.verifies
  }

  /** The nonce that delivery `k` recorded is in force until a sweep after its horizon. */
  predicate Remembers(horizon: real, ledger: map<string, real>, key: string, recorded: real, now: real) {
    if key in ledger then ledger[key] == recorded else now > recorded + horizon
  }

  predicate SameNonce(d: Delivery, e: Delivery) {
    NonceKey(KeyOf(d.q)) == NonceKey(KeyOf(e.q))
  }

  lemma StepRemembers(horizon: real, ttl: real, skew: real, pause: real, ledger: map<string, real>, key: string, recorded: real, now: real, d: Delivery)
    requires Sound(ttl, skew, pause, d) && now <= d.at.swept && Remembers(horizon, ledger, key, recorded, now)
    requires NonceKey(KeyOf(d.q)) == key ==> Decision(horizon, ledger, d).None?
    ensures Remembers(horizon, Decision(horizon, ledger, d).Or(ledger), key, recorded, d.at.swept)
  {
  }

  lemma {:induction false} RunRemembers(
    horizon: real, ttl: real, skew: real, pause: real, ledgers: seq<map<string, real>>, ds: seq<Delivery>, k: nat, j: nat)
    requires Run(horizon, ledgers, ds) && AllSound(ttl, skew, pause, ds) && k < j <= |ds| && Admitted(horizon, ledgers, ds, k)
    requires forall m :: k < m < j && SameNonce(ds[m], ds[k]) ==> !Admitted(horizon, ledgers, ds, m)
    ensures Remembers(horizon, ledgers[j], NonceKey(KeyOf(ds[k].q)), ds[k].at.recorded, ds[j - 1].at.swept)
  {
    assert StepAt(horizon, ledgers, ds, j - 1) && Sound(ttl, skew, pause, ds[j - 1]);
    if j > k + 1 {
      RunRemembers(horizon, ttl, skew, pause, ledgers, ds, k, j - 1);
      assert SameNonce(ds[j - 1], ds[k]) ==> !Admitted(horizon, ledgers, ds, j - 1);
      StepRemembers(horizon, ttl, skew, pause, ledgers[j - 1], NonceKey(KeyOf(ds[k].q)), ds[k].at.recorded, ds[j - 2].at.swept, ds[j - 1]);
    }
  }

  /** In every run: after delivery `k` was the last to be admitted under a nonce, delivery `j` with the same nonce
      is admitted exactly when it is addressed and signed, looked fresh at its first reading, and its sweep comes
      later than the horizon after what `k` recorded. */
  lemma ReadmittedIff(
    horizon: real, ttl: real, skew: real, pause: real, ledgers: seq<map<string, real>>, ds: seq<Delivery>, k: nat, j: nat)
    requires Run(horizon, ledgers, ds) && AllSound(ttl, skew, pause, ds) && k < j < |ds| && Admitted(horizon, ledgers, ds, k)
    requires SameNonce(ds[j], ds[k]) && forall m :: k < m < j && SameNonce(ds[m], ds[k]) ==> !Admitted(horizon, ledgers, ds, m)
    ensures Admitted(horizon, ledgers, ds, j) <==>
            Addressed(ds[j]) && IsFresh(ds[j].c, ds[j].q, ds[j].at.checked) && ds[j].at.swept > ds[k].at.recorded + horizon
  {
    RunRemembers(horizon, ttl, skew, pause, ledgers, ds, k, j);
    assert Sound(ttl, skew, pause, ds[j]) && ds[j - 1].at.swept <= ds[j].at.swept;
  }

  /** However small the pause between freshness test and sweep, it lets some delivery of any request through twice. */
  lemma PauseReopensReplay(ttl: real, skew: real, pause: real, q: Request)
    requires ttl > 0.0 && skew >= 0.0 && pause > 0.0 && q.stamp.At? && q.target == ""
    ensures var t := q.stamp.t;
            var first := Decision(ttl + skew, map[], Probe(ttl, skew, q, Clocks(t - skew, t - skew, t - skew)));
            && first.Some?
            && Decision(ttl + skew, first.value, Probe(ttl, skew, q, Clocks(t + ttl, t + ttl + pause, t + ttl + pause))).Some?
  {
  }

  /** A request without a timestamp skips the freshness test: in every run it is admitted again exactly once its
      nonce is swept. */
  lemma UnstampedIsReplayable(
    horizon: real, ttl: real, skew: real, pause: real, ledgers: seq<map<string, real>>, ds: seq<Delivery>, k: nat, j: nat)
    requires Run(horizon, ledgers, ds) && AllSound(ttl, skew, pause, ds) && k < j < |ds| && Admitted(horizon, ledgers, ds, k)
    requires SameNonce(ds[j], ds[k]) && forall m :: k < m < j && SameNonce(ds[m], ds[k]) ==> !Admitted(horizon, ledgers, ds, m)
    requires ds[j].q.stamp == NoStamp && Addressed(ds[j])
    ensures Admitted(horizon, ledgers, ds, j) <==> ds[j].at.swept > ds[k].at.recorded + horizon
  {
    ReadmittedIff(horizon, ttl, skew, pause, ledgers, ds, k, j);
  }

  // ---------------------------------------------------------------- handlers, over all routers

  /** A router's changing part: its handlers are fixed here, its cache is not. */
  datatype Node = Node(handlers: map<string, Request -> Result<string>>, cache: seq<Cached>)

  datatype Workspace = Workspace(ledger: map<string, real>, nodes: map<nat, Node>)

  /** Completed with the handler's value exactly when there is a handler and it succeeds; otherwise failed, with the
      handler's error if there is one. */
  predicate Answers(handlers: map<string, Request -> Result<string>>, q: Request, answer: Response) {
    && (answer.status == Completed <==> q.action in handlers && handlers[q.action](q).Ok?)
    && answer.status != Rejected
    && (q.action in handlers ==>
          match handlers[q.action](q) case Ok(v) => answer.text == v case Err(e) => answer.text == e)
  }

  /** What `Handle` does to ledger and cache, and whether it runs a handler; `answer` is what it returns. */
  ghost predicate Handles(horizon: real, w: Workspace, id: nat, d: Delivery, answer: Response, ran: bool, w': Workspace) {
    && id in w.nodes
    && var decision, hit := Decision(horizon, w.ledger, d), Lookup(w.nodes[id].cache, KeyOf(d.q));
       if decision.None? then !ran && w' == w
       else
         && (ran <==> hit.None? && d.q.action in w.nodes[id].handlers)
         && (if hit.Some? then answer == hit.value else Answers(w.nodes[id].handlers, d.q, answer))
         && w' == Workspace(decision.value,
                            w.nodes[id := w.nodes[id].(cache := Put(w.nodes[id].cache, KeyOf(d.q), answer, d.c.maxDedup))])
  }

  datatype Call = Call(id: nat, d: Delivery, answer: Response, ran: bool)

  ghost predicate CallAt(horizon: real, ws: seq<Workspace>, calls: seq<Call>, i: nat)
    requires i < |calls| && i + 1 < |ws|
  {
    Handles(horizon, ws[i], calls[i].id, calls[i].d, calls[i].answer, calls[i].ran, ws[i + 1])
  }

  ghost predicate WorkspaceRun(horizon: real, ws: seq<Workspace>, calls: seq<Call>) {
    && |ws| == |calls| + 1
    && (forall i :: 0 <= i < |calls| ==> CallAt(horizon, ws, calls, i))
    && forall i, j :: 0 <= i < j < |calls| ==> calls[i].d.at.swept <= calls[j].d.at.swept
  }

  /** Whatever the routers' caches hold, a handler runs at most once ever for a timestamped request. */
  lemma HandlerRunsAtMostOnce(
    horizon: real, ttl: real, skew: real, pause: real, ws: seq<Workspace>, calls: seq<Call>, i: nat, j: nat)
    requires WorkspaceRun(horizon, ws, calls) && horizon >= ttl + skew + pause
    requires forall k :: 0 <= k < |calls| ==> Sound(ttl, skew, pause, calls[k].d)
    requires i < j < |calls| && calls[i].d.q == calls[j].d.q && calls[i].d.q.stamp.At? && calls[i].ran
    ensures !calls[j].ran
  {
    var ledgers := seq(|ws|, k requires 0 <= k < |ws| => ws[k].ledger);
    var ds := seq(|calls|, k requires 0 <= k < |calls| => calls[k].d);
    forall k | 0 <= k < |ds| ensures StepAt(horizon, ledgers, ds, k) { assert CallAt(horizon, ws, calls, k); }
    assert CallAt(horizon, ws, calls, i) && CallAt(horizon, ws, calls, j);
    AdmittedAtMostOnce(horizon, ttl, skew, pause, ledgers, ds, i, j);
  }

  // ---------------------------------------------------------------- nonce keys

  lemma {:induction false} NonceKeyInjective(k1: Key, k2: Key)
    requires '|' !in k1.from && '|' !in k2.from && NonceKey(k1) == NonceKey(k2)
    ensures k1 == k2
  {
    var s := NonceKey(k1);
    var n1, n2 := |k1.from|, |k2.from|;
    assert s[n1] == '|' && s[n2] == '|';
    assert forall i :: 0 <= i < n1 ==> s[i] == k1.from[i] && s[i] != '|';
    assert forall i :: 0 <= i < n2 ==> s[i] == k2.from[i] && s[i] != '|';
    assert n1 == n2;
    assert k1.from == s[..n1] && k2.from == s[..n1];
    assert k1.id == s[n1 + 1..] && k2.id == s[n1 + 1..];
  }

  /** A sender name containing the separator shares its ledger keys with a different sender. */
  lemma SeparatorCollides(from: string, i: nat, id: string)
    requires i < |from| && from[i] == '|'
    ensures NonceKey(Key(from, id)) == NonceKey(Key(from[..i], from[i + 1..] + "|" + id))
    ensures Key(from, id) != Key(from[..i], from[i + 1..] + "|" + id)
  {
    assert from == from[..i] + "|" + from[i + 1..];
    assert |from| != |from[..i]|;
  }

  // ---------------------------------------------------------------- what the cache holds

  /** The distinct keys of a sequence of uses, ordered by last use. */
  function Recency(uses: seq<Key>): seq<Key> {
    if uses == [] then []
    else
      var k := uses[|uses| - 1];
      Drop(Recency(uses[..|uses| - 1]), {k}) + [k]
  }

  function Drop(keys: seq<Key>, gone: set<Key>): seq<Key> {
    if keys == [] then []
    else Drop(keys[..|keys| - 1], gone) + if keys[|keys| - 1] in gone then [] else [keys[|keys| - 1]]
  }

  function Keys(cache: seq<Cached>): seq<Key> {
    seq(|cache|, i requires 0 <= i < |cache| => cache[i].key)
  }

  lemma {:induction false} DropConcat(a: seq<Key>, b: seq<Key>, gone: set<Key>)
    ensures Drop(a + b, gone) == Drop(a, gone) + Drop(b, gone)
  {
    if b == [] {
      assert a + b == a;
    } else {
      DropConcat(a, b[..|b| - 1], gone);
      assert (a + b)[..|a + b| - 1] == a + b[..|b| - 1];
    }
  }

  lemma {:induction false} DropNothing(keys: seq<Key>, gone: set<Key>)
    requires forall k :: k in keys ==> k !in gone
    ensures Drop(keys, gone) == keys
  {
    if keys != [] {
      DropNothing(keys[..|keys| - 1], gone);
    }
  }

  lemma {:induction false} DropMembers(keys: seq<Key>, gone: set<Key>)
    ensures forall k :: k in Drop(keys, gone) <==> k in keys && k !in gone
    ensures |Drop(keys, gone)| <= |keys|
  {
    if keys != [] {
      var n := |keys| - 1;
      DropMembers(keys[..n], gone);
      assert keys == keys[..n] + [keys[n]];
    }
  }

  lemma {:induction false} DropNoDup(keys: seq<Key>, gone: set<Key>)
    requires NoDup(keys)
    ensures NoDup(Drop(keys, gone))
  {
    if keys != [] {
      var n := |keys| - 1;
      assert keys == keys[..n] + [keys[n]];
      AppendNoDup(keys[..n], keys[n]);
      DropNoDup(keys[..n], gone);
      DropMembers(keys[..n], gone);
      AppendNoDup(Drop(keys[..n], gone), keys[n]);
    }
  }

  lemma {:induction false} DropTwice(keys: seq<Key>, a: set<Key>, b: set<Key>)
    ensures Drop(Drop(keys, a), b) == Drop(keys, a + b)
  {
    if keys != [] {
      var n := |keys| - 1;
      DropTwice(keys[..n], a, b);
      if keys[n] !in a {
        DropConcat(Drop(keys[..n], a), [keys[n]], b);
        assert [keys[n]][..0] == [];
      } else {
        assert Drop(keys, a) == Drop(keys[..n], a);
      }
    }
  }

  lemma RecencyAppend(uses: seq<Key>, k: Key)
    ensures Recency(uses + [k]) == Drop(Recency(uses), {k}) + [k]
  {
    assert (uses + [k])[..|uses|] == uses;
  }

  lemma {:induction false} RecencyMembers(uses: seq<Key>)
    ensures NoDup(Recency(uses))
    ensures forall k :: k in Recency(uses) <==> k in uses
  {
    if uses != [] {
      var init, last := uses[..|uses| - 1], uses[|uses| - 1];
      RecencyMembers(init);
      assert uses == init + [last];
      RecencyAppend(init, last);
      DropMembers(Recency(init), {last});
      DropNoDup(Recency(init), {last});
      AppendNoDup(Drop(Recency(init), {last}), last);
    }
  }

  lemma {:induction false} KeysWithout(cache: seq<Cached>, key: Key)
    ensures Keys(Without(cache, key)) == Drop(Keys(cache), {key})
  {
    if cache != [] {
      var n := |cache| - 1;
      KeysWithout(cache[..n], key);
      assert Keys(cache)[..n] == Keys(cache[..n]);
      assert Keys(Without(cache, key)) == Keys(Without(cache[..n], key)) + if cache[n].key == key then [] else [cache[n].key];
    }
  }

  lemma LastNSuffix<T>(n: nat, a: seq<T>, b: seq<T>)
    requires a == [] || |b| >= n
    ensures LastN(n, a + b) == LastN(n, b)
  {
    if a == [] {
      assert a + b == b;
    }
  }

  /** Dropping and re-adding a key commutes with keeping the most recent `max`. */
  lemma LastNRefresh(max: nat, keys: seq<Key>, k: Key)
    requires NoDup(keys) && max > 0
    ensures LastN(max, Drop(LastN(max, keys), {k}) + [k]) == LastN(max, Drop(keys, {k}) + [k])
  {
    var cut, kept := CutAndKept(max, keys);
    DropConcat(cut, kept, {k});
    DropAtMostOne(kept, k);
    Reassociate(Drop(cut, {k}), Drop(kept, {k}), [k]);
    DropEmpty({k});
    LastNSuffix(max, Drop(cut, {k}), Drop(kept, {k}) + [k]);
  }

  lemma CutAndKept(max: nat, keys: seq<Key>) returns (cut: seq<Key>, kept: seq<Key>)
    requires NoDup(keys)
    ensures kept == LastN(max, keys) && keys == cut + kept && NoDup(kept) && (cut != [] ==> |kept| == max)
  {
    kept := LastN(max, keys);
    cut := keys[..|keys| - |kept|];
    forall i, j | 0 <= i < j < |kept| ensures kept[i] != kept[j] {
      assert kept[i] == keys[|cut| + i] && kept[j] == keys[|cut| + j];
    }
  }

  lemma DropEmpty(gone: set<Key>)
    ensures Drop([], gone) == []
  {
  }

  lemma DropAtMostOne(kept: seq<Key>, k: Key)
    requires NoDup(kept)
    ensures |Drop(kept, {k})| >= |kept| - 1
  {
    if k in kept { DropOne(kept, k); } else { DropNothing(kept, {k}); }
  }

  lemma {:induction false} DropOne(keys: seq<Key>, k: Key)
    requires NoDup(keys) && k in keys
    ensures |Drop(keys, {k})| == |keys| - 1
  {
    var n := |keys| - 1;
    assert keys == keys[..n] + [keys[n]];
    if keys[n] == k {
      DropNothing(keys[..n], {k});
    } else {
      DropOne(keys[..n], k);
    }
  }

  /** The cache a router holds after a sequence of uses with the given responses. */
  function CacheAfter(uses: seq<Key>, responses: seq<Response>, max: nat): seq<Cached>
    requires |uses| == |responses|
  {
    if uses == [] then []
    else
      var n := |uses| - 1;
      Put(CacheAfter(uses[..n], responses[..n], max), uses[n], responses[n], max)
  }

  lemma CacheNext(uses: seq<Key>, answers: seq<Response>, key: Key, answer: Response, max: nat)
    requires |uses| == |answers|
    ensures CacheAfter(uses + [key], answers + [answer], max) == Put(CacheAfter(uses, answers, max), key, answer, max)
  {
    assert (uses + [key])[..|uses|] == uses && (answers + [answer])[..|uses|] == answers;
  }

  lemma CacheFits(uses: seq<Key>, answers: seq<Response>, max: nat)
    requires |uses| == |answers|
    ensures |CacheAfter(uses, answers, max)| <= max
  {
  }

  /** The cache always holds exactly the `max` most recently used distinct keys, in recency order. */
  lemma {:induction false} CacheIsMostRecent(uses: seq<Key>, responses: seq<Response>, max: nat)
    requires |uses| == |responses| && max > 0
    ensures Keys(CacheAfter(uses, responses, max)) == LastN(max, Recency(uses))
  {
    if uses != [] {
      var n := |uses| - 1;
      var before := CacheAfter(uses[..n], responses[..n], max);
      CacheIsMostRecent(uses[..n], responses[..n], max);
      var grown := Without(before, uses[n]) + [Cached(uses[n], responses[n])];
      KeysWithout(before, uses[n]);
      assert Keys(grown) == Keys(Without(before, uses[n])) + [uses[n]];
      assert Keys(LastN(max, grown)) == LastN(max, Keys(grown));
      RecencyMembers(uses[..n]);
      LastNRefresh(max, Recency(uses[..n]), uses[n]);
    }
  }

  lemma {:induction false} RecencySplit(a: seq<Key>, b: seq<Key>)
    ensures Recency(a + b) == Drop(Recency(a), Elements(b)) + Recency(b)
  {
    if b == [] {
      RecencySplitNone(a);
    } else {
      var init, k := b[..|b| - 1], b[|b| - 1];
      RecencySplit(a, init);
      assert b == init + [k];
      RecencySplitStep(a, init, k);
    }
  }

  lemma RecencySplitNone(a: seq<Key>)
    ensures Recency(a + []) == Drop(Recency(a), Elements([])) + Recency([])
  {
    DropNothing(Recency(a), Elements([]));
    assert a + [] == a && Recency(a) + [] == Recency(a);
  }

  lemma RecencySplitStep(a: seq<Key>, init: seq<Key>, k: Key)
    requires Recency(a + init) == Drop(Recency(a), Elements(init)) + Recency(init)
    ensures Recency(a + (init + [k])) == Drop(Recency(a), Elements(init + [k])) + Recency(init + [k])
  {
    RecencyLater(a, init, k);
    RecencyAppend(init, k);
    ElementsAppend(init, k);
    DropBothParts(Recency(a), Elements(init), Recency(init), k);
  }

  lemma RecencyLater(a: seq<Key>, init: seq<Key>, k: Key)
    ensures Recency(a + (init + [k])) == Drop(Recency(a + init), {k}) + [k]
  {
    Reassociate(a, init, [k]);
    RecencyAppend(a + init, k);
  }

  lemma ElementsAppend(s: seq<Key>, k: Key)
    ensures Elements(s + [k]) == Elements(s) + {k}
  {
  }

  lemma DropBothParts(older: seq<Key>, gone: set<Key>, recent: seq<Key>, k: Key)
    ensures Drop(Drop(older, gone) + recent, {k}) + [k] == Drop(older, gone + {k}) + (Drop(recent, {k}) + [k])
  {
    DropConcat(Drop(older, gone), recent, {k});
    DropTwice(older, gone, {k});
    Reassociate(Drop(older, gone + {k}), Drop(recent, {k}), [k]);
  }

  lemma Reassociate(a: seq<Key>, b: seq<Key>, c: seq<Key>)
    ensures a + b + c == a + (b + c)
  {
  }

  lemma {:induction false} LookupMembers(cache: seq<Cached>, key: Key)
    ensures Lookup(cache, key).Some? <==> key in Keys(cache)
  {
    if cache != [] {
      var n := |cache| - 1;
      LookupMembers(cache[..n], key);
      assert Keys(cache) == Keys(cache[..n]) + [cache[n].key];
    }
  }

  /** Where a key used just before `since` stands in the recency order. */
  lemma RecencyAround(before: seq<Key>, key: Key, since: seq<Key>) returns (older: seq<Key>)
    requires key !in since
    ensures Recency(before + [key] + since) == older + [key] + Recency(since) && key !in older && key !in Recency(since)
    ensures |Recency(since)| == |Elements(since)|
  {
    RecencySplit(before + [key], since);
    RecencyAppend(before, key);
    RecencyMembers(since);
    var dropped := Drop(Recency(before), {key});
    DropMembers(Recency(before), {key});
    DropConcat(dropped, [key], Elements(since));
    assert [key][..0] == [] && Drop([key], Elements(since)) == [key];
    older := Drop(dropped, Elements(since));
    DropMembers(dropped, Elements(since));
    SetSizeDetectsDuplicates(Recency(since));
    assert Elements(Recency(since)) == Elements(since);
  }

  /** A key used before is still cached exactly when fewer than `max` distinct other keys were used since,
      so without the ledger a handler reruns for it only after at least that many. */
  lemma ForgottenIffManyOthers(before: seq<Key>, key: Key, since: seq<Key>, responses: seq<Response>, max: nat)
    requires key !in since && |responses| == |before| + 1 + |since| && max > 0
    ensures Lookup(CacheAfter(before + [key] + since, responses, max), key).None? <==> |Elements(since)| >= max
  {
    var uses := before + [key] + since;
    CacheIsMostRecent(uses, responses, max);
    LookupMembers(CacheAfter(uses, responses, max), key);
    var older := RecencyAround(before, key, since);
    KeyPosition(older, key, Recency(since), max);
  }

  lemma KeyPosition(older: seq<Key>, key: Key, newer: seq<Key>, max: nat)
    requires key !in older && key !in newer && max > 0
    ensures key in LastN(max, older + [key] + newer) <==> |newer| < max
  {
    var all := older + [key] + newer;
    var kept := LastN(max, all);
    var cut := |all| - |kept|;
    assert all[|older|] == key;
    assert forall i :: 0 <= i < |all| && all[i] == key ==> i == |older|;
    assert forall i :: 0 <= i < |kept| ==> kept[i] == all[cut + i];
    if |newer| < max {
      assert kept[|older| - cut] == key;
    }
  }
}
