/** The registry health cache (crates/cli/src/health.rs): answers per package, merged as registries are
    asked again. */
module HealthCache {
  import opened Wrappers

  datatype Ecosystem =
    | Cargo | Go | Npm | Pypi | RubyGems | Packagist | NuGet | Julia | Swift | Hex | Maven
    | GitHubActions | Deb | Apk | Rpm

  predicate HasRegistry(e: Ecosystem) {
    e in {Npm, Pypi, RubyGems, Cargo, NuGet, Packagist, Go, Hex, Maven}
  }

  datatype Signal = Deprecated | Yanked | Abandoned | Retracted | Retired | Relocated | Archived | LowScorecard

  datatype Flag = Flag(signal: Signal, detail: string, replacement: Option<string>)

  /** A package: its ecosystem and name, joined by a separator no name of an ecosystem holds. */
  type Key = (Ecosystem, string)

  /** Times are seconds. */
  const FRESH_SECS := 7 * 24 * 3600

  // ---- replies ----

  /** What a registry said of a package: flags per known version, and the versions it does not have. */
  datatype Reply = Reply(fetched: int, versions: map<string, seq<Flag>>, unknown: set<string>) {
    function Asked(): set<string> {
      versions.Keys + unknown
    }

    predicate Covers(wanted: set<string>) {
      forall v | v in wanted :: v in versions || v in unknown
    }

    /** No version is both known and unknown. */
    predicate Coherent() {
      versions.Keys !! unknown
    }
  }

  const NOTHING := Reply(0, map[], {})

  /** What a reply says of one version. */
  datatype Word = Silent | Absent | Known(flags: seq<Flag>)

  function Says(r: Reply, v: string): Word {
    if v in r.versions then Known(r.versions[v]) else if v in r.unknown then Absent else Silent
  }

  function Merged(was: Reply, newer: Reply): Reply {
    Reply(newer.fetched, (was.versions - newer.Asked()) + newer.versions, (was.unknown - newer.Asked()) + newer.unknown)
  }

  /** Merging keeps the two kinds of version apart, forgets no version, and lets the newer reply speak
      for every version it was asked about. */
  lemma MergeTakesTheNewestWord(was: Reply, newer: Reply, v: string)
    requires was.Coherent() && newer.Coherent()
    ensures Merged(was, newer).Coherent()
    ensures Merged(was, newer).Asked() == was.Asked() + newer.Asked()
    ensures Says(Merged(was, newer), v) == if Says(newer, v) != Silent then Says(newer, v) else Says(was, v)
  {
    assert Says(newer, v) != Silent <==> v in newer.Asked();
  }

  lemma DroppingOneMore(m: map<string, seq<Flag>>, s: set<string>, gone: set<string>, v: string)
    ensures (m - gone) - {v} == m - (gone + {v})
    ensures (s - gone) - {v} == s - (gone + {v})
  {
  }

  /** A package's cached answer. */
  class Answer {
    var fetched: int
    var versions: map<string, seq<Flag>>
    var unknown: set<string>

    function Value(): Reply
      reads this
    {
      Reply(fetched, versions, unknown)
    }

    constructor ()
      ensures Value() == NOTHING
    {
      fetched, versions, unknown := 0, map[], {};
    }

    method Merge(newer: Reply)
      modifies this
      ensures Value() == Merged(old(Value()), newer)
    {
      hide Reply.Asked;
      fetched := newer.fetched;
      var asked, gone := newer.Asked(), {};
      while asked != {}
        invariant asked + gone == newer.Asked()
        invariant fetched == newer.fetched
        invariant versions == old(versions) - gone
        invariant unknown == old(unknown) - gone
        decreases |asked|
      {
        var version :| version in asked;
        DroppingOneMore(old(versions), old(unknown), gone, version);
        versions := versions - {version};
        unknown := unknown - {version};
        asked, gone := asked - {version}, gone + {version};
      }
      assert gone == newer.Asked();
      versions := versions + newer.versions;
      unknown := unknown + newer.unknown;
    }
  }

  // ---- asking a registry ----

  type Verdict = Result<Option<seq<Flag>>, string>

  /** How a registry answers for one package: it cannot be reached, it has no such package, or it
      speaks of each version. */
  datatype Response = Down(reason: string) | NoPackage | ByVersion(one: string -> Verdict)

  type Registry = Key -> Response

  predicate Reached(response: Response, versions: set<string>) {
    match response
    case Down(_) => false
    case NoPackage => true
    case ByVersion(one) => forall v | v in versions :: one(v).Ok?
  }

  /** One verdict as a word. */
  function WordOf(response: Response, v: string): Word {
    match response
    case Down(_) => Silent
    case NoPackage => Absent
    case ByVersion(one) =>
      if one(v).Err? then Silent else if one(v).value.None? then Absent else Known(one(v).value.value)
  }

  /** `per_version` and `unknown`: `answer` gives each asked version its word, and no other. */
  ghost predicate Answers(response: Response, versions: set<string>, answer: Reply) {
    && answer.Coherent()
    && answer.Asked() == versions
    && forall v | v in versions :: Says(answer, v) == WordOf(response, v)
  }

  /** One more verdict. */
  function Told(answer: Reply, version: string, flags: Option<seq<Flag>>): Reply {
    if flags.Some? then answer.(versions := answer.versions[version := flags.value])
    else answer.(unknown := answer.unknown + {version})
  }

  lemma ToldAnswers(one: string -> Verdict, done: set<string>, answer: Reply, version: string)
    requires Answers(ByVersion(one), done, answer) && version !in done && one(version).Ok?
    ensures Answers(ByVersion(one), done + {version}, Told(answer, version, one(version).value))
  {
    hide WordOf;
    var after := Told(answer, version, one(version).value);
    assert version !in answer.Asked() && after.Asked() == answer.Asked() + {version};
    forall v | v in done + {version}
      ensures Says(after, v) == WordOf(ByVersion(one), v)
    {
      if v == version {
        WordOfVerdict(one, v);
      } else {
        assert Says(after, v) == Says(answer, v);
      }
    }
  }

  lemma WordOfVerdict(one: string -> Verdict, v: string)
    requires one(v).Ok?
    ensures WordOf(ByVersion(one), v) == if one(v).value.None? then Absent else Known(one(v).value.value)
  {
  }

  method PerVersion(versions: set<string>, one: string -> Verdict) returns (r: Result<Reply, string>)
    ensures r.Ok? <==> Reached(ByVersion(one), versions)
    ensures r.Ok? ==> r.value.fetched == 0 && Answers(ByVersion(one), versions, r.value)
    ensures r.Err? ==> exists v :: v in versions && one(v) == Err(r.error)
  {
    hide Answers, Told;
    var answer := NOTHING;
    NothingAnswers(one);
    var todo, done := versions, {};
    while todo != {}
      invariant todo + done == versions && todo !! done
      invariant answer.fetched == 0 && Answers(ByVersion(one), done, answer)
      invariant forall v | v in done :: one(v).Ok?
      decreases |todo|
    {
      var version :| version in todo;
      var verdict := one(version);
      if verdict.Err? {
        return Err(verdict.error);
      }
      ToldAnswers(one, done, answer, version);
      TellingKeepsTheStamp(answer, version, verdict.value);
      answer := Told(answer, version, verdict.value);
      todo, done := todo - {version}, done + {version};
    }
    assert done == versions;
    r := Ok(answer);
  }

  lemma NothingAnswers(one: string -> Verdict)
    ensures Answers(ByVersion(one), {}, NOTHING)
  {
  }

  lemma TellingKeepsTheStamp(answer: Reply, version: string, flags: Option<seq<Flag>>)
    ensures Told(answer, version, flags).fetched == answer.fetched
  {
  }

  method Check(response: Response, versions: set<string>) returns (r: Result<Reply, string>)
    ensures r.Ok? <==> Reached(response, versions)
    ensures r.Ok? ==> r.value.fetched == 0 && Answers(response, versions, r.value)
  {
    match response {
      case Down(reason) => r := Err(reason);
      case NoPackage => r := Ok(Reply(0, map[], versions));
      case ByVersion(one) => r := PerVersion(versions, one);
    }
  }

  // ---- refreshing ----

  /** One run: the time, the versions in use of each package, and the registries unless offline. */
  datatype Round = Round(now: int, wanted: map<Key, set<string>>, fetch: Option<Registry>)

  predicate Stale(was: Option<Reply>, versions: set<string>, now: int) {
    was.None? || !was.value.Covers(versions) || now - was.value.fetched >= FRESH_SECS
  }

  /** The registry is asked about `k`. */
  predicate Asks(was: Option<Reply>, k: Key, round: Round) {
    && round.fetch.Some?
    && k in round.wanted
    && HasRegistry(k.0)
    && Stale(was, round.wanted[k], round.now)
  }

  /** It is asked, and answers. */
  predicate Hears(was: Option<Reply>, k: Key, round: Round) {
    Asks(was, k, round) && Reached(round.fetch.value(k), round.wanted[k])
  }

  predicate Fails(was: Option<Reply>, k: Key, round: Round) {
    Asks(was, k, round) && !Reached(round.fetch.value(k), round.wanted[k])
  }

  /** A package's entry across a run: merged with a stamped answer when one came, else untouched. */
  ghost predicate Refreshes(was: Option<Reply>, k: Key, round: Round, now: Option<Reply>) {
    if Hears(was, k, round) then
      && now.Some?
      && exists answer: Reply ::
           && answer.fetched == round.now
           && Answers(round.fetch.value(k), round.wanted[k], answer)
           && now.value == Merged(OrNothing(was), answer)
    else now == was
  }

  function OrNothing(entry: Option<Reply>): Reply {
    if entry.Some? then entry.value else NOTHING
  }

  /** Every entry went through the run, and the failures are exactly the failed lookups. */
  ghost predicate RefreshedAll(was: map<Key, Reply>, round: Round, now: map<Key, Reply>, failed: set<Key>) {
    && (forall k :: Refreshes(Lookup(was, k), k, round, Lookup(now, k)))
    && (forall k :: k in failed <==> Fails(Lookup(was, k), k, round))
  }

  /** The same with only the lookups of `done` handled. */
  ghost predicate Progress(was: map<Key, Reply>, round: Round, done: set<Key>, now: map<Key, Reply>, failed: set<Key>) {
    && (forall k | k in done :: Refreshes(Lookup(was, k), k, round, Lookup(now, k)))
    && (forall k | k !in done :: Lookup(now, k) == Lookup(was, k))
    && (forall k :: k in failed <==> k in done && Fails(Lookup(was, k), k, round))
  }

  lemma NoProgress(was: map<Key, Reply>, round: Round)
    ensures Progress(was, round, {}, was, {})
  {
    hide Refreshes, Fails;
  }

  lemma NothingIsAskedOffline(was: map<Key, Reply>, round: Round)
    requires round.fetch.None?
    ensures RefreshedAll(was, round, was, {})
  {
    hide Merged, Answers, Stale;
  }

  lemma NotYet(was: map<Key, Reply>, round: Round, done: set<Key>, now: map<Key, Reply>, failed: set<Key>, k: Key)
    requires Progress(was, round, done, now, failed) && k !in done
    ensures Lookup(now, k) == Lookup(was, k)
  {
  }

  lemma AllDone(was: map<Key, Reply>, round: Round, done: set<Key>, now: map<Key, Reply>, failed: set<Key>)
    requires Progress(was, round, done, now, failed)
    requires forall k :: k in done <==> k in round.wanted && Asks(Lookup(was, k), k, round)
    ensures RefreshedAll(was, round, now, failed)
  {
    hide Merged, Answers, Stale, Reached, HasRegistry;
    forall k
      ensures Refreshes(Lookup(was, k), k, round, Lookup(now, k))
      ensures k in failed <==> Fails(Lookup(was, k), k, round)
    {
      assert Asks(Lookup(was, k), k, round) ==> k in done;
    }
  }

  lemma FailedOne(was: map<Key, Reply>, round: Round, done: set<Key>, now: map<Key, Reply>, failed: set<Key>, key: Key)
    requires Progress(was, round, done, now, failed) && key !in done
    requires Asks(Lookup(was, key), key, round) && !Reached(round.fetch.value(key), round.wanted[key])
    ensures Progress(was, round, done + {key}, now, failed + {key})
  {
    hide Merged, Answers, Asks, Reached;
    forall k | k in done + {key}
      ensures Refreshes(Lookup(was, k), k, round, Lookup(now, k))
    {
    }
  }

  lemma HeardOne(was: map<Key, Reply>, round: Round, done: set<Key>, now: map<Key, Reply>, failed: set<Key>, key: Key,
                 after: map<Key, Reply>)
    requires Progress(was, round, done, now, failed) && key !in done
    requires Asks(Lookup(was, key), key, round) && Reached(round.fetch.value(key), round.wanted[key])
    requires Refreshes(Lookup(now, key), key, round, Lookup(after, key))
    requires forall k | k != key :: Lookup(after, k) == Lookup(now, k)
    ensures Progress(was, round, done + {key}, after, failed)
  {
    hide Asks, Reached, Refreshes;
  }

  class Cache {
    var packages: map<Key, Answer>
    ghost var Repr: set<Answer>

    /** No two packages share an answer. */
    ghost predicate Valid()
      reads this
    {
      && (forall k | k in packages :: packages[k] in Repr)
      && (forall k, l | k in packages && l in packages && k != l :: packages[k] != packages[l])
    }

    function Contents(): (m: map<Key, Reply>)
      requires Valid()
      reads this, Repr
      ensures m.Keys == packages.Keys
      ensures forall k | k in packages :: m[k] == packages[k].Value()
    {
      map k | k in packages :: packages[k].Value()
    }

    constructor ()
      ensures Valid() && fresh(Repr) && Contents() == map[]
    {
      packages, Repr := map[], {};
    }

    /** What the cache holds of one package. */
    method Get(k: Key) returns (entry: Option<Reply>)
      requires Valid()
      ensures entry == Lookup(Contents(), k)
    {
      entry := if k in packages then Some(packages[k].Value()) else None;
    }

    /** The packages in use that have a registry and no fresh answer. */
    method ToAsk(round: Round) returns (todo: set<Key>)
      requires Valid() && round.fetch.Some?
      ensures forall k :: k in todo <==> k in round.wanted && Asks(Lookup(Contents(), k), k, round)
    {
      hide Stale, HasRegistry;
      todo := {};
      var left, done := round.wanted.Keys, {};
      while left != {}
        invariant left + done == round.wanted.Keys
        invariant forall k :: k in todo <==> k in done && Asks(Lookup(Contents(), k), k, round)
        decreases |left|
      {
        var k :| k in left;
        var entry := Get(k);
        if HasRegistry(k.0) && Stale(entry, round.wanted[k], round.now) {
          todo := todo + {k};
        }
        left, done := left - {k}, done + {k};
      }
    }

    /** One response: its entry refreshed, or the reason it failed. */
    method AskOne(round: Round, key: Key) returns (error: Option<string>)
      requires Valid() && round.fetch.Some? && key in round.wanted
      requires Asks(Lookup(Contents(), key), key, round)
      modifies this, Repr
      ensures Valid() && fresh(Repr - old(Repr))
      ensures error.None? <==> Reached(round.fetch.value(key), round.wanted[key])
      ensures error.Some? ==> Contents() == old(Contents())
      ensures Refreshes(Lookup(old(Contents()), key), key, round, Lookup(Contents(), key))
      ensures forall k | k != key :: Lookup(Contents(), k) == Lookup(old(Contents()), k)
    {
      hide Answers, Reached, Merged, Stale, HasRegistry;
      var answer := Check(round.fetch.value(key), round.wanted[key]);
      if answer.Err? {
        return Some(answer.error);
      }
      AnswersAtAnyTime(round.fetch.value(key), round.wanted[key], answer.value, round.now);
      Enter(key, answer.value.(fetched := round.now));
      error := None;
    }

    /** The keys whose lookup failed, and one reason. */
    method Refresh(round: Round) returns (failed: set<Key>, reason: Option<string>)
      requires Valid()
      modifies this, Repr
      ensures Valid() && fresh(Repr - old(Repr))
      ensures RefreshedAll(old(Contents()), round, Contents(), failed)
      ensures reason.Some? <==> failed != {}
    {
      hide *;
      failed, reason := {}, None;
      ghost var was := Contents();
      if round.fetch.None? {
        NothingIsAskedOffline(was, round);
        return;
      }
      var todo := ToAsk(round);
      ghost var done: set<Key> := {};
      NoProgress(was, round);
      while todo != {}
        invariant todo !! done
        invariant forall k :: k in todo + done <==> k in round.wanted && Asks(Lookup(was, k), k, round)
        invariant Valid() && fresh(Repr - old(Repr))
        invariant Progress(was, round, done, Contents(), failed)
        invariant reason.Some? <==> failed != {}
        decreases |todo|
      {
        var key :| key in todo;
        ghost var before := Contents();
        assert Progress(was, round, done, before, failed);
        NotYet(was, round, done, before, failed, key);
        var e := AskOne(round, key);
        if e.None? {
          HeardOne(was, round, done, before, failed, key, Contents());
        } else {
          assert Contents() == before;
          FailedOne(was, round, done, before, failed, key);
          reason := if reason.None? then e else reason;
          failed := failed + {key};
        }
        todo, done := todo - {key}, done + {key};
      }
      AllDone(was, round, done, Contents(), failed);
    }

    /** One entry merged with a new answer, made first where there is none. */
    method Enter(key: Key, answer: Reply)
      requires Valid()
      modifies this, Repr
      ensures Valid() && fresh(Repr - old(Repr))
      ensures Contents() == old(Contents())[key := Merged(OrNothing(Lookup(old(Contents()), key)), answer)]
    {
      hide Merged;
      if key !in packages {
        var entry := new Answer();
        packages, Repr := packages[key := entry], Repr + {entry};
      }
      packages[key].Merge(answer);
    }
  }

  lemma AnswersAtAnyTime(response: Response, versions: set<string>, a: Reply, now: int)
    requires Answers(response, versions, a)
    ensures Answers(response, versions, a.(fetched := now))
  {
    hide Reached, WordOf;
    forall v | v in versions
      ensures Says(a.(fetched := now), v) == WordOf(response, v)
    {
      assert Says(a, v) == WordOf(response, v);
    }
  }

  // ---- every sequence of runs ----

  /** `entries[i]` is what the cache holds of `k` after `i` runs, from an empty cache. */
  ghost predicate Recorded(rounds: seq<Round>, k: Key, entries: seq<Option<Reply>>) {
    && |entries| == |rounds| + 1
    && entries[0] == None
    && forall i | 0 <= i < |rounds| :: Refreshes(entries[i], k, rounds[i], entries[i + 1])
  }

  /** What the last run that heard of version `v` of `k` was told. */
  ghost function LastHeard(rounds: seq<Round>, k: Key, entries: seq<Option<Reply>>, n: nat, v: string): Word
    requires n <= |rounds| && |entries| == |rounds| + 1
  {
    if n == 0 then Silent
    else if Hears(entries[n - 1], k, rounds[n - 1]) && v in rounds[n - 1].wanted[k] then
      WordOf(rounds[n - 1].fetch.value(k), v)
    else LastHeard(rounds, k, entries, n - 1, v)
  }

  function Spoken(entry: Option<Reply>, v: string): Word {
    if entry.None? then Silent else Says(entry.value, v)
  }

  /** One run across an entry: the entry stays coherent, and a version's word changes only to what the
      registry says of it now. */
  lemma RefreshKeepsOrRenews(was: Option<Reply>, k: Key, round: Round, now: Option<Reply>, v: string)
    requires Refreshes(was, k, round, now)
    requires was.Some? ==> was.value.Coherent()
    ensures now.Some? ==> now.value.Coherent()
    ensures Spoken(now, v) ==
      if Hears(was, k, round) && v in round.wanted[k] then WordOf(round.fetch.value(k), v) else Spoken(was, v)
  {
    hide WordOf, Reached;
    if Hears(was, k, round) {
      var answer: Reply :|
        && answer.fetched == round.now
        && Answers(round.fetch.value(k), round.wanted[k], answer)
        && now.value == Merged(OrNothing(was), answer);
      MergeTakesTheNewestWord(OrNothing(was), answer, v);
      assert v in answer.Asked() <==> v in round.wanted[k];
    }
  }

  /** Over every sequence of runs, whatever the registries said and whichever failed: no version is ever
      both known and unknown, and the cache says of each version what the last run to hear of it was
      told, nothing if none was. */
  lemma {:induction false} CacheSaysTheLastWord(rounds: seq<Round>, k: Key, entries: seq<Option<Reply>>, n: nat,
                                                     v: string)
    requires Recorded(rounds, k, entries) && n <= |rounds|
    ensures entries[n].Some? ==> entries[n].value.Coherent()
    ensures Spoken(entries[n], v) == LastHeard(rounds, k, entries, n, v)
  {
    hide Refreshes, Hears, WordOf;
    if n > 0 {
      CacheSaysTheLastWord(rounds, k, entries, n - 1, v);
      RefreshKeepsOrRenews(entries[n - 1], k, rounds[n - 1], entries[n], v);
    }
  }

  /** After an online run, a package in use whose lookup did not fail has an answer for each version in
      use, stamped within the freshness limit. */
  lemma AnsweredAfterAnOnlineRun(was: Option<Reply>, k: Key, round: Round, now: Option<Reply>)
    requires Refreshes(was, k, round, now)
    requires round.fetch.Some? && k in round.wanted && HasRegistry(k.0) && !Fails(was, k, round)
    ensures now.Some? && now.value.Covers(round.wanted[k]) && round.now - now.value.fetched < FRESH_SECS
  {
    hide WordOf, Reached;
    if Hears(was, k, round) {
      var answer: Reply :|
        && answer.fetched == round.now
        && Answers(round.fetch.value(k), round.wanted[k], answer)
        && now.value == Merged(OrNothing(was), answer);
      forall v | v in round.wanted[k]
        ensures v in now.value.versions || v in now.value.unknown
      {
        assert v in answer.Asked();
      }
    }
  }

  /** Nothing is asked offline, and an entry is never lost. */
  lemma EntriesAreNeverLost(was: Option<Reply>, k: Key, round: Round, now: Option<Reply>)
    requires Refreshes(was, k, round, now)
    ensures round.fetch.None? ==> now == was
    ensures was.Some? ==> now.Some? && was.value.Asked() <= now.value.Asked()
  {
    hide WordOf, Reached;
    if Hears(was, k, round) && was.Some? {
      var answer: Reply :|
        && answer.fetched == round.now
        && Answers(round.fetch.value(k), round.wanted[k], answer)
        && now.value == Merged(was.value, answer);
    }
  }

  // ---- one run for one package, from what is cached and what the registry says ----

  /** The ecosystems no registry answers for. */
  ghost predicate Unregistered(e: Ecosystem) {
    e in {Julia, Swift, GitHubActions, Deb, Apk, Rpm}
  }

  /** The package is in use and has a registry, the run is online, and what is cached misses a version in use or was
      fetched a week ago or more. */
  ghost predicate Due(was: Option<Reply>, k: Key, round: Round) {
    && round.fetch.Some? && k in round.wanted && !Unregistered(k.0)
    && (was == None
        || (exists v :: v in round.wanted[k] && v !in was.value.versions && v !in was.value.unknown)
        || round.now - was.value.fetched >= 604800)
  }

  /** The registry fails: it cannot be reached, or has an error for a version in use. */
  ghost predicate Errs(response: Response, versions: set<string>) {
    response.Down? || (response.ByVersion? && exists v :: v in versions && response.one(v).Err?)
  }

  lemma RegistriesAre(e: Ecosystem)
    ensures HasRegistry(e) <==> !Unregistered(e)
  {
  }

  lemma DueIsAsked(was: Option<Reply>, k: Key, round: Round)
    ensures Asks(was, k, round) <==> Due(was, k, round)
    ensures Due(was, k, round) ==>
      (Reached(round.fetch.value(k), round.wanted[k]) <==> !Errs(round.fetch.value(k), round.wanted[k]))
  {
    RegistriesAre(k.0);
    hide HasRegistry, Unregistered;
  }

  /** The entry holds what the registry said of the version. */
  ghost predicate Learned(response: Response, now: Reply, v: string) {
    match response
    case Down(_) => false
    case NoPackage => v in now.unknown && v !in now.versions
    case ByVersion(one) =>
      if one(v) == Ok(None) then v in now.unknown && v !in now.versions
      else v in now.versions && v !in now.unknown && one(v) == Ok(Some(now.versions[v]))
  }

  /** The entry holds what it held before of the version. */
  ghost predicate Remembered(was: Option<Reply>, now: Reply, v: string) {
    && (v in now.unknown <==> was.Some? && v in was.value.unknown)
    && (v in now.versions <==> was.Some? && v in was.value.versions)
    && (v in now.versions ==> was.Some? && v in was.value.versions && now.versions[v] == was.value.versions[v])
  }

  /** A package due is asked about: when the registry fails it is reported failed and its entry stays; otherwise the
      entry is stamped with the run's time and takes the registry's word for each version in use. A package not due
      is not asked about, and its entry stays. */
  lemma DuePackagesAreRefreshed(was: map<Key, Reply>, round: Round, now: map<Key, Reply>, failed: set<Key>, k: Key)
    requires RefreshedAll(was, round, now, failed)
    requires k in was ==> was[k].Coherent()
    ensures var entry := Lookup(was, k);
      && (k in failed <==> Due(entry, k, round) && Errs(round.fetch.value(k), round.wanted[k]))
      && (if Due(entry, k, round) && k !in failed then
            && k in now && now[k].fetched == round.now
            && forall v ::
              if v in round.wanted[k] then Learned(round.fetch.value(k), now[k], v) else Remembered(entry, now[k], v)
          else Lookup(now, k) == entry)
  {
    var entry, after := Lookup(was, k), Lookup(now, k);
    DueIsAsked(entry, k, round);
    assert Refreshes(entry, k, round, after);
    hide Asks, Due, Errs, Reached;
    if Hears(entry, k, round) {
      var answer: Reply :|
        && answer.fetched == round.now
        && Answers(round.fetch.value(k), round.wanted[k], answer)
        && after.value == Merged(OrNothing(entry), answer);
      MergedIsLearned(entry, round.fetch.value(k), round.wanted[k], answer);
    }
    hide Learned, Remembered;
  }

  lemma MergedIsLearned(was: Option<Reply>, response: Response, versions: set<string>, answer: Reply)
    requires was.Some? ==> was.value.Coherent()
    requires Answers(response, versions, answer) && Reached(response, versions)
    ensures var now := Merged(OrNothing(was), answer);
      forall v :: if v in versions then Learned(response, now, v) else Remembered(was, now, v)
  {
    var before := OrNothing(was);
    var now := Merged(before, answer);
    forall v
      ensures if v in versions then Learned(response, now, v) else Remembered(was, now, v)
    {
      MergeTakesTheNewestWord(before, answer, v);
      assert v in answer.Asked() <==> v in versions;
      assert v in versions ==> WordOf(response, v) != Silent;
      hide Merged, Answers;
    }
  }
}
