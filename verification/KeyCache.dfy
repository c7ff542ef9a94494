/**
 The JSON Web Key Set cache (section 5 of RFC 7517): what one refresh builds, and what threads that
 read, miss, fetch, install and read again without a common lock can make of it.
 */
module KeyCache {
  import opened Wrappers

  datatype Key = Rsa(n: nat, e: nat) | Ec(curve: string, x: nat, y: nat)

  /** One entry of a key set: its kid, empty when absent, and what parsing it yields. */
  datatype Jwk = Jwk(kid: string, key: Option<Key>)

  type KeySet = map<string, Key>

  datatype Response = Unreachable | Status(code: int) | Malformed | Document(keys: seq<Jwk>)

  // ---------- one refresh ----------

  /** The last parsed entry with the given kid. */
  function KeyFor(keys: seq<Jwk>, kid: string): Option<Key> {
    if keys == [] then None
    else
      var k := keys[|keys| - 1];
      if k.kid == kid && k.key.Some? then k.key else KeyFor(keys[..|keys| - 1], kid)
  }

  function Kids(keys: seq<Jwk>): set<string> {
    set i | 0 <= i < |keys| && keys[i].key.Some? :: keys[i].kid
  }

  lemma {:induction false} KeyForKids(keys: seq<Jwk>, kid: string)
    ensures KeyFor(keys, kid).Some? <==> kid in Kids(keys)
  {
    if keys != [] {
      var front, k := keys[..|keys| - 1], keys[|keys| - 1];
      KeyForKids(front, kid);
      assert kid in Kids(keys) <==> kid in Kids(front) || (k.key.Some? && k.kid == kid) by {
        if kid in Kids(keys) {
          var i :| 0 <= i < |keys| && keys[i].key.Some? && keys[i].kid == kid;
          assert i < |front| ==> front[i] == keys[i];
        }
        if kid in Kids(front) {
          var i :| 0 <= i < |front| && front[i].key.Some? && front[i].kid == kid;
          assert keys[i] == front[i];
        }
      }
    }
  }

  /** The complete build of one document: every parsed kid with its last key. */
  function Build(keys: seq<Jwk>): KeySet {
    map kid | kid in Kids(keys) && KeyFor(keys, kid).Some? :: KeyFor(keys, kid).value
  }

  lemma BuildAt(keys: seq<Jwk>, kid: string)
    ensures kid in Build(keys) <==> KeyFor(keys, kid).Some?
    ensures kid in Build(keys) ==> Build(keys)[kid] == KeyFor(keys, kid).value
  {
    KeyForKids(keys, kid);
  }

  lemma BuildOneMore(keys: seq<Jwk>, k: Jwk)
    ensures Build(keys + [k]) == if k.key.Some? then Build(keys)[k.kid := k.key.value] else Build(keys)
  {
    assert (keys + [k])[..|keys|] == keys;
    forall kid
      ensures kid in Build(keys + [k]) <==> kid in Build(keys) || (k.key.Some? && kid == k.kid)
      ensures kid in Build(keys + [k]) ==> Build(keys + [k])[kid] == KeyFor(keys + [k], kid).value
      ensures kid in Build(keys) ==> Build(keys)[kid] == KeyFor(keys, kid).value
    {
      BuildAt(keys, kid);
      BuildAt(keys + [k], kid);
    }
  }

  /** A document is usable when at least one of its keys parses. */
  predicate Usable(keys: seq<Jwk>) { Kids(keys) != {} }

  lemma UsableBuilds(keys: seq<Jwk>)
    ensures Usable(keys) <==> Build(keys) != map[]
  {
    forall kid {
      KeyForKids(keys, kid);
    }
    if Usable(keys) {
      var kid :| kid in Kids(keys);
      assert kid in Build(keys);
    } else {
      assert Build(keys).Keys == {};
    }
  }

  /** The key built for a kid is the one of the last entry that has the kid and parses. */
  lemma {:induction false} BuildIsLast(keys: seq<Jwk>, kid: string)
    ensures kid in Build(keys) <==> exists i | 0 <= i < |keys| :: keys[i].kid == kid && keys[i].key.Some?
    ensures kid in Build(keys) ==>
              exists i | 0 <= i < |keys| ::
                keys[i] == Jwk(kid, Some(Build(keys)[kid])) && forall j | i < j < |keys| :: keys[j].kid != kid || keys[j].key.None?
  {
    if keys != [] {
      var front, k := keys[..|keys| - 1], keys[|keys| - 1];
      assert keys == front + [k];
      BuildOneMore(front, k);
      BuildIsLast(front, kid);
      if !(k.kid == kid && k.key.Some?) && kid in Build(front) {
        var i :| 0 <= i < |front| && front[i] == Jwk(kid, Some(Build(front)[kid]))
                 && forall j | i < j < |front| :: front[j].kid != kid || front[j].key.None?;
        assert keys[i] == Jwk(kid, Some(Build(keys)[kid]));
      }
      if i :| 0 <= i < |front| && front[i].kid == kid && front[i].key.Some? {
        assert keys[i].kid == kid;
      }
    }
  }

  /** What a response offers to install: the build of a usable document. */
  function Offered(r: Response): Option<seq<Jwk>> {
    if r.Document? && Usable(r.keys) then Some(r.keys) else None
  }

  method BuildKeySet(keys: seq<Jwk>) returns (keySet: KeySet)
    ensures keySet == Build(keys)
  {
    keySet := map[];
    for i := 0 to |keys|
      invariant keySet == Build(keys[..i])
    {
      BuildOneMore(keys[..i], keys[i]);
      assert keys[..i + 1] == keys[..i] + [keys[i]];
      var k := keys[i];
      if k.key.None? {
        continue;
      }
      if k.kid == "" {
        keySet := keySet["" := k.key.value];
      } else {
        keySet := keySet[k.kid := k.key.value];
      }
    }
    assert keys[..|keys|] == keys;
  }

  class JWTAuthenticator {
    var keySet: KeySet

    constructor ()
      ensures keySet == map[]
    {
      keySet := map[];
    }

    /** Installs the build of a usable document, and otherwise leaves the key set alone. */
    method RefreshKeys(response: Response) returns (ok: bool)
      modifies this
      ensures ok == Offered(response).Some?
      ensures keySet == if ok then Build(Offered(response).value) else old(keySet)
    {
      if response.Unreachable? || (response.Status? && response.code != 200) || !response.Document? {
        return false;
      }
      if |response.keys| == 0 {
        return false;
      }
      var built := BuildKeySet(response.keys);
      UsableBuilds(response.keys);
      if |built| == 0 {
        return false;
      }
      keySet := built;
      return true;
    }

    /** A call that nothing interrupts: the cached key, or else the key of the one document it fetches. */
    method Keyfunc(kid: string, response: Response) returns (key: Option<Key>, fetches: nat)
      modifies this
      ensures fetches <= 1
      ensures kid in old(keySet) ==> key == Some(old(keySet)[kid]) && fetches == 0 && keySet == old(keySet)
      ensures kid !in old(keySet) ==>
                fetches == 1 && key == if Offered(response).Some? then KeyFor(Offered(response).value, kid) else None
      ensures keySet == old(keySet) || (Offered(response).Some? && keySet == Build(Offered(response).value))
    {
      if kid in keySet {
        return Some(keySet[kid]), 0;
      }
      var ok := RefreshKeys(response);
      if !ok {
        return None, 1;
      }
      BuildAt(Offered(response).value, kid);
      if kid !in keySet {
        return None, 1;
      }
      return Some(keySet[kid]), 1;
    }
  }

  // ---------- many threads ----------

  /** Where a call is; documents and installations are named by their place in the logs. */
  datatype Call = Started(kid: string)
                | Missed(kid: string)
                | Fetched(kid: string, doc: nat)
                | Installed(kid: string, doc: nat, at: nat)
                | Returned(kid: string, key: Option<Key>)

  /** served logs the usable documents in the order they were fetched, installs which of them were installed, in order. */
  datatype State = State(keySet: KeySet, served: seq<seq<Jwk>>, installs: seq<nat>, calls: map<nat, Call>, fetches: map<nat, nat>)

  predicate Init(s: State) { s == State(map[], [], [], map[], map[]) }

  predicate Begin(s: State, s': State, t: nat, kid: string) {
    t !in s.calls && s' == s.(calls := s.calls[t := Started(kid)], fetches := s.fetches[t := 0])
  }

  /** The first read, under the read lock. */
  predicate FirstRead(s: State, s': State, t: nat) {
    t in s.calls && s.calls[t].Started?
    && var kid := s.calls[t].kid;
       s' == s.(calls := s.calls[t := if kid in s.keySet then Returned(kid, Some(s.keySet[kid])) else Missed(kid)])
  }

  /** The request and the local build; a response without a usable document ends the call. */
  predicate Fetch(s: State, s': State, t: nat, r: Response) {
    t in s.calls && s.calls[t].Missed? && t in s.fetches
    && var kid, counted := s.calls[t].kid, s.(fetches := s.fetches[t := s.fetches[t] + 1]);
       s' == match Offered(r)
             case None => counted.(calls := s.calls[t := Returned(kid, None)])
             case Some(keys) => counted.(served := s.served + [keys], calls := s.calls[t := Fetched(kid, |s.served|)])
  }

  /** The assignment under the write lock. */
  predicate Install(s: State, s': State, t: nat) {
    t in s.calls && s.calls[t].Fetched? && s.calls[t].doc < |s.served|
    && var doc := s.calls[t].doc;
       s' == s.(keySet := Build(s.served[doc]), installs := s.installs + [doc],
                calls := s.calls[t := Installed(s.calls[t].kid, doc, |s.installs|)])
  }

  /** The second read, under the read lock. */
  predicate SecondRead(s: State, s': State, t: nat) {
    t in s.calls && s.calls[t].Installed?
    && var kid := s.calls[t].kid;
       s' == s.(calls := s.calls[t := Returned(kid, if kid in s.keySet then Some(s.keySet[kid]) else None)])
  }

  /** A step of one thread. */
  ghost predicate StepOf(s: State, s': State, t: nat) {
    (exists kid :: Begin(s, s', t, kid)) || FirstRead(s, s', t) || (exists r :: Fetch(s, s', t, r)) || Install(s, s', t) || SecondRead(s, s', t)
  }

  ghost predicate Next(s: State, s': State) { exists t: nat :: StepOf(s, s', t) }

  ghost predicate Run(run: seq<State>) {
    |run| > 0 && Init(run[0]) && forall i | 0 <= i < |run| - 1 :: Next(run[i], run[i + 1])
  }

  /** The cache is empty and untouched, or the complete build of the document installed last. */
  predicate CacheIsOneBuild(s: State) {
    (forall i | 0 <= i < |s.installs| :: s.installs[i] < |s.served|)
    && (forall i | 0 <= i < |s.served| :: Usable(s.served[i]))
    && s.keySet == if s.installs == [] then map[] else Build(s.served[s.installs[|s.installs| - 1]])
  }

  /** Each call is where its logs say; a key it returned is some served document's entry for its kid. */
  predicate CallIsSound(s: State, t: nat)
    requires t in s.calls
  {
    t in s.fetches
    && match s.calls[t]
       case Started(_) => s.fetches[t] == 0
       case Missed(_) => s.fetches[t] == 0
       case Fetched(_, doc) => s.fetches[t] == 1 && doc < |s.served|
       case Installed(_, doc, at) => s.fetches[t] == 1 && at < |s.installs| && s.installs[at] == doc
       case Returned(kid, key) =>
         s.fetches[t] <= 1 && (key.Some? ==> exists d | 0 <= d < |s.served| :: KeyFor(s.served[d], kid) == key)
  }

  predicate Inv(s: State) { CacheIsOneBuild(s) && forall t | t in s.calls :: CallIsSound(s, t) }

  lemma CachedKeyIsServed(s: State, kid: string)
    requires CacheIsOneBuild(s) && kid in s.keySet
    ensures exists d | 0 <= d < |s.served| :: KeyFor(s.served[d], kid) == Some(s.keySet[kid])
  {
    var d := s.installs[|s.installs| - 1];
    BuildAt(s.served[d], kid);
    assert KeyFor(s.served[d], kid) == Some(s.keySet[kid]);
  }

  // What a step does to a call that does not move is only to lengthen the logs it names.
  lemma OtherCallsStaySound(s: State, s': State, t: nat, u: nat)
    requires u in s.calls && u in s'.calls && u != t && CallIsSound(s, u)
    requires s'.calls[u] == s.calls[u] && u in s'.fetches && (u in s.fetches ==> s'.fetches[u] == s.fetches[u])
    requires s.served <= s'.served && s.installs <= s'.installs
    ensures CallIsSound(s', u)
  {
    if s.calls[u].Returned? && s.calls[u].key.Some? {
      var d :| 0 <= d < |s.served| && KeyFor(s.served[d], s.calls[u].kid) == s.calls[u].key;
      assert s'.served[d] == s.served[d];
    }
  }

  lemma CacheStep(s: State, s': State, t: nat)
    requires Inv(s) && StepOf(s, s', t)
    ensures s.served <= s'.served && s.installs <= s'.installs
    ensures CacheIsOneBuild(s')
  {
    assert t in s.calls ==> CallIsSound(s, t);
  }

  lemma OthersKeptInStep(s: State, s': State, t: nat)
    requires StepOf(s, s', t)
    ensures t in s'.calls && s'.calls.Keys == s.calls.Keys + {t}
    ensures forall u | u in s.calls && u != t :: s'.calls[u] == s.calls[u]
    ensures forall u | u in s.fetches && u != t :: u in s'.fetches && s'.fetches[u] == s.fetches[u]
  {}

  lemma OwnStep(s: State, s': State, t: nat)
    requires Inv(s) && StepOf(s, s', t)
    ensures t in s'.calls && CallIsSound(s', t)
  {
    if t in s.calls {
      assert CallIsSound(s, t);
      if s.calls[t].kid in s.keySet {
        CachedKeyIsServed(s, s.calls[t].kid);
      }
    }
  }

  lemma Step(s: State, s': State, t: nat)
    requires Inv(s)
    requires StepOf(s, s', t)
    ensures Inv(s')
    ensures s.served <= s'.served && s.installs <= s'.installs
  {
    CacheStep(s, s', t);
    OwnStep(s, s', t);
    OthersKeptInStep(s, s', t);
    forall u | u in s'.calls
      ensures CallIsSound(s', u)
    {
      if u != t {
        assert CallIsSound(s, u);
        OtherCallsStaySound(s, s', t, u);
      }
    }
  }

  lemma NextKeepsInv(s: State, s': State)
    requires Inv(s) && Next(s, s')
    ensures Inv(s') && s.served <= s'.served && s.installs <= s'.installs
  {
    var t: nat :| StepOf(s, s', t);
    CacheStep(s, s', t);
    Step(s, s', t);
  }

  lemma {:induction false} InvThroughout(run: seq<State>, n: nat)
    requires Run(run) && n < |run|
    ensures Inv(run[n])
  {
    if n > 0 {
      InvThroughout(run, n - 1);
      NextKeepsInv(run[n - 1], run[n - 1 + 1]);
    }
  }

  /**
   In every state of every run the cache is the initial empty map or the complete build of one served
   document, every key a call returned is some served document's key for the kid it asked for, and no
   call fetched more than once.
   */
  lemma CacheIsNeverMixed(run: seq<State>, n: nat)
    requires Run(run) && n < |run|
    ensures var s := run[n];
            s.keySet == map[] || exists d | 0 <= d < |s.served| :: s.keySet == Build(s.served[d])
    ensures forall t | t in run[n].calls && run[n].calls[t].Returned? && run[n].calls[t].key.Some? ::
              exists d | 0 <= d < |run[n].served| :: KeyFor(run[n].served[d], run[n].calls[t].kid) == run[n].calls[t].key
    ensures forall t | t in run[n].calls :: t in run[n].fetches && run[n].fetches[t] <= 1
  {
    InvThroughout(run, n);
    var s := run[n];
    forall t | t in s.calls
      ensures t in s.fetches && s.fetches[t] <= 1
    {
      assert CallIsSound(s, t);
    }
    forall t | t in s.calls && s.calls[t].Returned? && s.calls[t].key.Some?
      ensures exists d | 0 <= d < |s.served| :: KeyFor(s.served[d], s.calls[t].kid) == s.calls[t].key
    {
      assert CallIsSound(s, t);
    }
  }

  lemma GrowsOnce(run: seq<State>, n: nat)
    requires Run(run) && 0 < n < |run|
    ensures run[n - 1].installs <= run[n].installs
  {
    InvThroughout(run, n - 1);
    NextKeepsInv(run[n - 1], run[n - 1 + 1]);
  }

  lemma {:induction false} LogsOnlyGrow(run: seq<State>, m: nat, n: nat)
    requires Run(run) && m <= n < |run|
    ensures |run[m].installs| <= |run[n].installs|
  {
    if m < n {
      LogsOnlyGrow(run, m, n - 1);
      GrowsOnce(run, n);
    }
  }

  /** Once filled the cache is never empty again. */
  lemma NeverEmptiedAgain(run: seq<State>, m: nat, n: nat)
    requires Run(run) && m <= n < |run| && run[m].keySet != map[]
    ensures run[n].keySet != map[]
  {
    InvThroughout(run, m);
    InvThroughout(run, n);
    LogsOnlyGrow(run, m, n);
    UsableBuilds(run[n].served[run[n].installs[|run[n].installs| - 1]]);
  }

  /** No step but an installation changes the cache; in particular a failed fetch does not. */
  lemma OnlyInstallChangesCache(s: State, s': State)
    requires Next(s, s') && s'.keySet != s.keySet
    ensures exists t: nat :: Install(s, s', t)
  {}

  /**
   The second read returns the call's own document's key unless another call installed in between;
   a call whose own document has the key fails only when one without it was installed afterwards.
   */
  lemma SecondReadResult(s: State, s': State, t: nat)
    requires Inv(s) && SecondRead(s, s', t)
    ensures s'.calls[t].key == KeyFor(s.served[s.installs[|s.installs| - 1]], s.calls[t].kid)
    ensures s.calls[t].at == |s.installs| - 1 ==> s'.calls[t].key == KeyFor(s.served[s.calls[t].doc], s.calls[t].kid)
    ensures s'.calls[t].key.None? && KeyFor(s.served[s.calls[t].doc], s.calls[t].kid).Some?
            ==> s.calls[t].at < |s.installs| - 1 && s.installs[|s.installs| - 1] != s.calls[t].doc
  {
    assert CallIsSound(s, t);
    BuildAt(s.served[s.installs[|s.installs| - 1]], s.calls[t].kid);
  }

  // ---------- when a call fetches ----------

  /** In some earlier state the call was about to read the cache, which held key for its kid, or nothing. */
  ghost predicate ReadEarlier(run: seq<State>, n: nat, t: nat, kid: string, key: Option<Key>)
    requires n <= |run|
  {
    exists m | 0 <= m < n ::
      t in run[m].calls && run[m].calls[t] == Started(kid) && key == if kid in run[m].keySet then Some(run[m].keySet[kid]) else None
  }

  /** A call that has not fetched got its key from the cache at its first read; one that has found no key there then. */
  ghost predicate FetchedOnMiss(run: seq<State>, n: nat, t: nat)
    requires n < |run|
  {
    var s := run[n];
    t in s.calls && t in s.fetches ==>
      match s.calls[t]
      case Started(_) => s.fetches[t] == 0
      case Returned(kid, key) => if s.fetches[t] == 0 then key.Some? && ReadEarlier(run, n, t, kid, key) else ReadEarlier(run, n, t, kid, None)
      case _ => ReadEarlier(run, n, t, s.calls[t].kid, None)
  }

  lemma StillReadEarlier(run: seq<State>, n: nat, t: nat, kid: string, key: Option<Key>)
    requires n < |run| && ReadEarlier(run, n, t, kid, key)
    ensures ReadEarlier(run, n + 1, t, kid, key)
  {
    var m :| 0 <= m < n && t in run[m].calls && run[m].calls[t] == Started(kid)
             && key == if kid in run[m].keySet then Some(run[m].keySet[kid]) else None;
  }

  /** Over every run, a call fetches exactly when its first read misses, and otherwise returns the key it read. */
  lemma {:induction false} FetchesOnlyOnMiss(run: seq<State>, n: nat, t: nat)
    requires Run(run) && n < |run|
    ensures FetchedOnMiss(run, n, t)
  {
    if n > 0 {
      FetchesOnlyOnMiss(run, n - 1, t);
      InvThroughout(run, n - 1);
      assert Next(run[n - 1], run[n - 1 + 1]);
      var u: nat :| StepOf(run[n - 1], run[n], u);
      MissStep(run, n, t, u);
    }
  }

  lemma MissStep(run: seq<State>, n: nat, t: nat, u: nat)
    requires 0 < n < |run| && Inv(run[n - 1]) && StepOf(run[n - 1], run[n], u) && FetchedOnMiss(run, n - 1, t)
    ensures FetchedOnMiss(run, n, t)
  {
    var s, s' := run[n - 1], run[n];
    OthersKeptInStep(s, s', u);
    if t in s.calls {
      assert CallIsSound(s, t);
      var kid := s.calls[t].kid;
      forall key | ReadEarlier(run, n - 1, t, kid, key)
        ensures ReadEarlier(run, n, t, kid, key)
      {
        StillReadEarlier(run, n - 1, t, kid, key);
      }
      if s.calls[t].Started? {
        assert ReadEarlier(run, n, t, kid, if kid in s.keySet then Some(s.keySet[kid]) else None);
      }
      if u == t {
        OwnMove(s, s', t);
      }
    }
  }

  // Where a call can go in one step of its own.
  lemma OwnMove(s: State, s': State, t: nat)
    requires Inv(s) && StepOf(s, s', t) && t in s.calls
    ensures t in s'.calls && s'.calls[t].kid == s.calls[t].kid && t in s.fetches && t in s'.fetches
    ensures s.calls[t].Started? ==>
              s'.fetches[t] == s.fetches[t] == 0
              && (s'.calls[t].Missed? || s'.calls[t].Returned?)
              && (s'.calls[t].Returned? <==> s.calls[t].kid in s.keySet)
              && (s'.calls[t].Returned? ==> s'.calls[t].key == Some(s.keySet[s.calls[t].kid]))
    ensures !s.calls[t].Started? ==> !s'.calls[t].Started? && (s'.calls[t].Returned? ==> s'.fetches[t] > 0)
    ensures !s.calls[t].Returned?
  {
    assert CallIsSound(s, t);
  }

  // ---------- a key lost to an older document ----------

  const OLD_KEYS := [Jwk("old", Some(Rsa(15, 3)))]
  const NEW_KEYS := [Jwk("new", Some(Rsa(21, 5)))]

  /** Two calls for the rotated key: the second fetches before the rotation and installs after the first. */
  function Rotation(n: nat): State
    requires n < 10
  {
    match n
    case 0 => State(map[], [], [], map[], map[])
    case 1 => State(map[], [], [], map[1 := Started("new")], map[1 := 0])
    case 2 => State(map[], [], [], map[1 := Started("new"), 2 := Started("new")], map[1 := 0, 2 := 0])
    case 3 => State(map[], [], [], map[1 := Started("new"), 2 := Missed("new")], map[1 := 0, 2 := 0])
    case 4 => State(map[], [OLD_KEYS], [], map[1 := Started("new"), 2 := Fetched("new", 0)], map[1 := 0, 2 := 1])
    case 5 => State(map[], [OLD_KEYS], [], map[1 := Missed("new"), 2 := Fetched("new", 0)], map[1 := 0, 2 := 1])
    case 6 => State(map[], [OLD_KEYS, NEW_KEYS], [], map[1 := Fetched("new", 1), 2 := Fetched("new", 0)], map[1 := 1, 2 := 1])
    case 7 => State(Build(NEW_KEYS), [OLD_KEYS, NEW_KEYS], [1], map[1 := Installed("new", 1, 0), 2 := Fetched("new", 0)], map[1 := 1, 2 := 1])
    case 8 => State(Build(OLD_KEYS), [OLD_KEYS, NEW_KEYS], [1, 0], map[1 := Installed("new", 1, 0), 2 := Installed("new", 0, 1)], map[1 := 1, 2 := 1])
    case 9 => State(Build(OLD_KEYS), [OLD_KEYS, NEW_KEYS], [1, 0], map[1 := Returned("new", None), 2 := Installed("new", 0, 1)], map[1 := 1, 2 := 1])
  }

  lemma RotationKeys()
    ensures Usable(OLD_KEYS) && Usable(NEW_KEYS)
    ensures "new" !in Build(OLD_KEYS) && KeyFor(NEW_KEYS, "new").Some?
  {
    assert OLD_KEYS[0].kid in Kids(OLD_KEYS) && NEW_KEYS[0].kid in Kids(NEW_KEYS);
    KeyForKids(NEW_KEYS, "new");
  }

  lemma RotationStep(n: nat)
    requires n < 9
    ensures Next(Rotation(n), Rotation(n + 1))
  {
    if n < 5 {
      FirstRotationStep(n);
    } else {
      LastRotationStep(n);
    }
  }

  lemma FirstRotationStep(n: nat)
    requires n < 5
    ensures Next(Rotation(n), Rotation(n + 1))
  {
    var s, s' := Rotation(n), Rotation(n + 1);
    RotationKeys();
    match n {
      case 0 => assert Begin(s, s', 1, "new") && StepOf(s, s', 1);
      case 1 => assert Begin(s, s', 2, "new") && StepOf(s, s', 2);
      case 2 => assert FirstRead(s, s', 2) && StepOf(s, s', 2);
      case 3 => assert Fetch(s, s', 2, Document(OLD_KEYS)) && StepOf(s, s', 2);
      case 4 => assert FirstRead(s, s', 1) && StepOf(s, s', 1);
    }
  }

  lemma LastRotationStep(n: nat)
    requires 5 <= n < 9
    ensures Next(Rotation(n), Rotation(n + 1))
  {
    var s, s' := Rotation(n), Rotation(n + 1);
    RotationKeys();
    match n {
      case 5 =>
        assert [OLD_KEYS] + [NEW_KEYS] == [OLD_KEYS, NEW_KEYS];
        assert Fetch(s, s', 1, Document(NEW_KEYS)) && StepOf(s, s', 1);
      case 6 => assert Install(s, s', 1) && StepOf(s, s', 1);
      case 7 =>
        assert [1] + [0] == [1, 0];
        assert Install(s, s', 2) && StepOf(s, s', 2);
      case 8 => assert SecondRead(s, s', 1) && StepOf(s, s', 1);
    }
  }

  /** A call may fail although the document it fetched and installed has its key. */
  predicate OwnKeyLost(s: State, t: nat, doc: nat) {
    t in s.calls && s.calls[t] == Returned(s.calls[t].kid, None) && doc < |s.served| && KeyFor(s.served[doc], s.calls[t].kid).Some?
  }

  lemma OwnKeyCanBeLost()
    ensures exists run: seq<State> ::
              Run(run) && |run| > 1 && 1 in run[|run| - 2].calls && run[|run| - 2].calls[1].Installed?
              && OwnKeyLost(run[|run| - 1], 1, run[|run| - 2].calls[1].doc)
  {
    var run := seq(10, n requires 0 <= n < 10 => Rotation(n));
    forall i | 0 <= i < 9
      ensures Next(run[i], run[i + 1])
    {
      RotationStep(i);
    }
    assert Run(run);
    RotationKeys();
    assert run[8] == Rotation(8) && run[9] == Rotation(9);
  }
}
