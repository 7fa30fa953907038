/** warehouse-service's signing-key refresh: request threads that check an age and then a flag, and a background task
    that fetches, installs and lowers the flag, in any interleaving. */
module KeyRefresh {
  import opened Text

  const MIN_REFRESH_INTERVAL: int := 10 * SECOND

  /** A background task: waiting for Keycloak, holding the key set of a version, or about to lower the flag. */
  datatype Task = Fetching | Fetched(version: nat) | Ending

  datatype Start = Start(thread: nat, time: int)

  /** `published` are the kids of each key set that Keycloak has served, the last being current; `installed` is the
      version in the cache; `missed` are the threads that have not found their kid and not yet checked the age, `passed`
      those between the age check and the compare-and-swap. */
  datatype State = State(
    now: int,
    published: seq<set<string>>,
    installed: nat,
    lastFetch: int,
    refreshing: bool,
    missed: set<nat>,
    passed: set<nat>,
    tasks: map<nat, Task>,
    starts: seq<Start>)

  datatype Event =
    | Tick(duration: nat)
    | Rotate(kids: set<string>)
    | Look(thread: nat, kid: string)
    | CheckAge(thread: nat)
    | CompareAndSwap(thread: nat)
    | Answer(task: nat)
    | FetchFails(task: nat)
    | Install(task: nat)
    | LowerFlag(task: nat)

  /** The context built at start-up, with the current key set. */
  function Begin(kids: set<string>, now: int): State {
    State(now, [kids], 0, now, false, {}, {}, map[], [])
  }

  predicate OldEnough(lastFetch: int, now: int) {
    now - lastFetch >= MIN_REFRESH_INTERVAL
  }

  predicate Unknown(s: State, kid: string) {
    s.installed < |s.published| ==> kid !in s.published[s.installed]
  }

  predicate TaskIs(s: State, task: nat, t: Task) {
    task in s.tasks && s.tasks[task] == t
  }

  function Apply(s: State, e: Event): State {
    match e
    case Tick(duration) => s.(now := s.now + duration)
    case Rotate(kids) => s.(published := s.published + [kids])
    case Look(thread, kid) => if thread !in s.passed && Unknown(s, kid) then s.(missed := s.missed + {thread}) else s
    case CheckAge(thread) =>
      if thread !in s.missed then s
      else s.(missed := s.missed - {thread}, passed := if OldEnough(s.lastFetch, s.now) then s.passed + {thread} else s.passed)
    case CompareAndSwap(thread) =>
      if thread !in s.passed then s
      else if s.refreshing then s.(passed := s.passed - {thread})
      else s.(passed := s.passed - {thread}, refreshing := true, tasks := s.tasks[|s.starts| := Fetching],
              starts := s.starts + [Start(thread, s.now)])
    case Answer(task) =>
      if TaskIs(s, task, Fetching) && s.published != [] then s.(tasks := s.tasks[task := Fetched(|s.published| - 1)]) else s
    case FetchFails(task) => if TaskIs(s, task, Fetching) then s.(tasks := s.tasks[task := Ending]) else s
    case Install(task) =>
      if task in s.tasks && s.tasks[task].Fetched?
      then s.(installed := s.tasks[task].version, lastFetch := s.now, tasks := s.tasks[task := Ending])
      else s
    case LowerFlag(task) => if TaskIs(s, task, Ending) then s.(refreshing := false, tasks := s.tasks - {task}) else s
  }

  function Run(s: State, es: seq<Event>): State
    decreases |es|
  {
    if es == [] then s else Run(Apply(s, es[0]), es[1..])
  }

  lemma {:induction false} RunOn(s: State, es: seq<Event>, fs: seq<Event>)
    ensures Run(s, es + fs) == Run(Run(s, es), fs)
    decreases |es|
  {
    if es == [] {
      assert es + fs == fs;
    } else {
      assert (es + fs)[0] == es[0] && (es + fs)[1..] == es[1..] + fs;
      RunOn(Apply(s, es[0]), es[1..], fs);
    }
  }

  // ---- Single flight ----

  ghost predicate Inv(s: State) {
    && s.lastFetch <= s.now && s.installed < |s.published|
    && (s.refreshing <==> exists t :: t in s.tasks)
    && (forall a, b :: a in s.tasks && b in s.tasks ==> a == b)
    && (forall a :: a in s.tasks ==> a < |s.starts|)
    && (forall a :: a in s.tasks && s.tasks[a].Fetched? ==> s.installed <= s.tasks[a].version < |s.published|)
  }

  lemma StepKeeps(s: State, e: Event)
    requires Inv(s)
    ensures Inv(Apply(s, e)) && s.installed <= Apply(s, e).installed && s.lastFetch <= Apply(s, e).lastFetch
    ensures s.now <= Apply(s, e).now && s.published <= Apply(s, e).published && s.starts <= Apply(s, e).starts
  {
    var s' := Apply(s, e);
    if e.CompareAndSwap? && e.thread in s.passed && !s.refreshing {
      assert forall a :: a !in s.tasks;
      assert |s.starts| in s'.tasks;
    } else if !e.LowerFlag? && s.refreshing {
      var t :| t in s.tasks;
      assert t in s'.tasks;
    }
  }

  lemma {:induction false} RunKeeps(s: State, es: seq<Event>)
    requires Inv(s)
    ensures Inv(Run(s, es)) && s.installed <= Run(s, es).installed && s.lastFetch <= Run(s, es).lastFetch
    ensures s.now <= Run(s, es).now && s.published <= Run(s, es).published && s.starts <= Run(s, es).starts
    decreases |es|
  {
    if es != [] {
      StepKeeps(s, es[0]);
      RunKeeps(Apply(s, es[0]), es[1..]);
    }
  }

  /** In every interleaving at most one refresh is alive, the flag is up exactly while one is, and the installed key set
      only moves forward among the published ones: at no later point of the run is it older. */
  lemma SingleFlight(kids: set<string>, now: int, es: seq<Event>, more: seq<Event>)
    ensures var s, s' := Run(Begin(kids, now), es), Run(Begin(kids, now), es + more);
            && |s.tasks| <= 1 && (s.refreshing <==> |s.tasks| == 1)
            && s.installed <= s'.installed < |s'.published|
  {
    var s := Run(Begin(kids, now), es);
    RunKeeps(Begin(kids, now), es);
    RunOn(Begin(kids, now), es, more);
    RunKeeps(s, more);
    if s.refreshing {
      var t :| t in s.tasks;
      assert s.tasks == map[t := s.tasks[t]];
      assert |map[t := s.tasks[t]]| == 1;
    } else {
      assert s.tasks == map[];
    }
  }

  lemma {:induction false} GoneForGood(s: State, es: seq<Event>, task: nat)
    requires Inv(s) && task !in s.tasks && task < |s.starts|
    ensures task !in Run(s, es).tasks
    decreases |es|
  {
    if es != [] {
      StepKeeps(s, es[0]);
      GoneForGood(Apply(s, es[0]), es[1..], task);
    }
  }

  lemma {:induction false} AnswerIsFresh(s: State, es: seq<Event>, task: nat, current: nat)
    requires Inv(s) && task in s.tasks && current < |s.published|
    requires s.tasks[task].Fetched? ==> current <= s.tasks[task].version
    ensures var s' := Run(s, es); task in s'.tasks && s'.tasks[task].Fetched? ==> current <= s'.tasks[task].version
    decreases |es|
  {
    if es != [] {
      var s' := Apply(s, es[0]);
      StepKeeps(s, es[0]);
      if task in s'.tasks {
        AnswerIsFresh(s', es[1..], task, current);
      } else {
        GoneForGood(s', es[1..], task);
      }
    }
  }

  /** A refresh brings in every rotation that came before it: when a thread wins the flag and its task installs, however
      much later, the installed key set is at least as new as the one that was current when the thread won. */
  lemma InstallIsFresh(s: State, thread: nat, es: seq<Event>)
    requires Inv(s) && thread in s.passed && !s.refreshing
    ensures var won := Apply(s, CompareAndSwap(thread));
            var later := Run(won, es);
            var after := Apply(later, Install(|s.starts|));
            after != later ==> |s.published| - 1 <= after.installed
  {
    StepKeeps(s, CompareAndSwap(thread));
    AnswerIsFresh(Apply(s, CompareAndSwap(thread)), es, |s.starts|, |s.published| - 1);
  }

  // ---- The rate of refreshes ----

  /** The starts of a run from `s` on. */
  function NewStarts(s: State, es: seq<Event>): seq<Start> {
    if |s.starts| <= |Run(s, es).starts| then Run(s, es).starts[|s.starts|..] else []
  }

  ghost predicate FromDistinct(starts: seq<Start>, threads: set<nat>) {
    && (forall i :: 0 <= i < |starts| ==> starts[i].thread in threads)
    && (forall i, j :: 0 <= i < j < |starts| ==> starts[i].thread != starts[j].thread)
  }

  /** Within MIN_REFRESH_INTERVAL of the last install, refreshes start only in threads that had passed the age check
      before, each at most once: their number is bounded by those threads that have since left. */
  lemma {:induction false} SpawnBudget(s: State, es: seq<Event>)
    requires Inv(s) && Run(s, es).now < s.lastFetch + 10_000_000_000
    ensures Run(s, es).passed <= s.passed
    ensures FromDistinct(NewStarts(s, es), s.passed - Run(s, es).passed)
    ensures |NewStarts(s, es)| <= |s.passed| - |Run(s, es).passed|
    decreases |es|
  {
    if es == [] {
      assert NewStarts(s, es) == [];
    } else {
      var s' := Apply(s, es[0]);
      StepKeeps(s, es[0]);
      RunKeeps(s', es[1..]);
      StepBudget(s, es[0]);
      SpawnBudget(s', es[1..]);
      assert Run(s, es) == Run(s', es[1..]);
      assert NewStarts(s, es) == s'.starts[|s.starts|..] + NewStarts(s', es[1..]);
    }
  }

  lemma StepBudget(s: State, e: Event)
    requires Inv(s) && Apply(s, e).now < s.lastFetch + MIN_REFRESH_INTERVAL
    ensures var s' := Apply(s, e);
            && s.starts <= s'.starts && s'.passed <= s.passed
            && |s'.starts| - |s.starts| <= |s.passed| - |s'.passed|
            && FromDistinct(s'.starts[|s.starts|..], s.passed - s'.passed)
  {
  }

  /** What a thread in `passed` does: it wins the flag, its fetch fails, and the flag is lowered. */
  function FailedRefresh(thread: nat, task: nat): seq<Event> {
    [CompareAndSwap(thread), FetchFails(task), LowerFlag(task)]
  }

  lemma RunFailedRefresh(s: State, thread: nat)
    requires Inv(s) && thread in s.passed && !s.refreshing
    ensures Run(s, FailedRefresh(thread, |s.starts|)) == s.(passed := s.passed - {thread}, starts := s.starts + [Start(thread, s.now)])
  {
    var task := |s.starts|;
    assert forall a :: a !in s.tasks;
    assert s.tasks == map[];
    var es := FailedRefresh(thread, task);
    var s1 := Apply(s, es[0]);
    var s2 := Apply(s1, es[1]);
    var s3 := Apply(s2, es[2]);
    assert s2.tasks == map[task := Ending] && s3.tasks == map[];
    assert es[1..] == [es[1], es[2]] && es[1..][1..] == [es[2]] && [es[2]][1..] == [];
    assert Run(s2, [es[2]]) == Run(s3, []);
    assert Run(s1, es[1..]) == Run(s2, [es[2]]);
  }

  /** The budget is exact: as many starts as threads have passed can really happen, without any time going by. */
  lemma {:induction false} BudgetAttained(s: State) returns (es: seq<Event>)
    requires Inv(s) && !s.refreshing
    ensures Run(s, es).now == s.now && |NewStarts(s, es)| == |s.passed|
    decreases |s.passed|
  {
    es := [];
    if s.passed != {} {
      var thread :| thread in s.passed;
      var one := FailedRefresh(thread, |s.starts|);
      RunFailedRefresh(s, thread);
      var s' := Run(s, one);
      RunKeeps(s, one);
      var rest := BudgetAttained(s');
      RunKeeps(s', rest);
      es := one + rest;
      RunOn(s, one, rest);
    }
  }

  /** An early refresh, within the interval after an install, can start if and only if some thread had already passed the
      age check at that install. Were check and compare-and-swap one step, there would be none. */
  lemma EarlyStartIff(s: State, task: nat)
    requires Inv(s) && TaskIs(s, task, Ending) && s.lastFetch == s.now
    ensures (exists es :: Run(s, es).now < s.now + 10_000_000_000 && NewStarts(s, es) != []) <==> s.passed != {}
  {
    forall es | Run(s, es).now < s.now + 10_000_000_000 && NewStarts(s, es) != [] ensures s.passed != {} {
      SpawnBudget(s, es);
    }
    if s.passed != {} {
      var lowered := Apply(s, LowerFlag(task));
      StepKeeps(s, LowerFlag(task));
      var rest := BudgetAttained(lowered);
      var es := [LowerFlag(task)] + rest;
      assert es[1..] == rest && Run(s, es) == Run(lowered, rest);
      assert Run(s, es).now < s.now + MIN_REFRESH_INTERVAL && NewStarts(s, es) != [];
    }
  }

  /** Requests with an unknown kid, each of whose refreshes fails. */
  function Storm(n: nat, kid: string, from: nat): seq<Event>
    decreases n
  {
    if n == 0 then [] else [Look(0, kid), CheckAge(0)] + FailedRefresh(0, from) + Storm(n - 1, kid, from + 1)
  }

  /** A failed fetch does not count as one: once the last install is old, any number of refreshes can start at a single
      instant, so the interval alone does not limit how often Keycloak is asked. */
  lemma {:induction false} FailedFetchesAreNotLimited(s: State, n: nat, kid: string)
    requires Inv(s) && !s.refreshing && s.missed == {} && s.passed == {} && s.now - s.lastFetch >= 10_000_000_000 && kid !in s.published[s.installed]
    ensures var s' := Run(s, Storm(n, kid, |s.starts|));
            s'.now == s.now && s'.lastFetch == s.lastFetch && |s'.starts| == |s.starts| + n
    decreases n
  {
    if n > 0 {
      var one := [Look(0, kid), CheckAge(0)] + FailedRefresh(0, |s.starts|);
      var s1 := Apply(s, Look(0, kid));
      var s2 := Apply(s1, CheckAge(0));
      StepKeeps(s, Look(0, kid));
      StepKeeps(s1, CheckAge(0));
      RunFailedRefresh(s2, 0);
      var s3 := Run(s, one);
      assert one[1..][1..] == FailedRefresh(0, |s.starts|);
      assert Run(s1, one[1..]) == Run(s2, one[1..][1..]);
      assert s3.missed == {} && s3.passed == {};
      RunKeeps(s, one);
      RunOn(s, one, Storm(n - 1, kid, |s.starts| + 1));
      FailedFetchesAreNotLimited(s3, n - 1, kid);
    }
  }
}
