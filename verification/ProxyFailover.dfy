/** The search of the zoom filter over a list of proxies: which target each pass uses, and when it
    tries again. src/filter_zoom.cpp:1140-1237, 1265-1269, 2229-2261, 2278-2311, 2528-2533. */
module ProxyFailover {
  import opened Options

  /** What the outside does in one pass: whether a target is made at all, whether it is the explain
      database, the proxy of its profile, whether it retries on failure, what fails, and whether its
      proxy answers when it is checked. */
  datatype Answer = Answer(found: bool, explain: bool, cfProxy: string, retryOnFailure: bool,
                           connectFails: bool, searchFails: bool, proxyWorks: bool)

  /** The loop's variables; current is the proxy of the connection that may be reused. */
  datatype Loop = Loop(step: nat, sameRetries: nat, proxyRetries: nat, current: Option<string>)

  /** A pass: the position in the proxy list it uses, if any, and its proxy. */
  datatype Pass = Pass(position: Option<nat>, proxy: string, why: Why)

  datatype Why = First | Failover | Same

  /** The first position of the proxy in the list, or its length. */
  function IndexOf(proxies: seq<string>, proxy: string): (i: nat)
    ensures i <= |proxies| && (i < |proxies| ==> proxies[i] == proxy)
  {
    if proxies == [] || proxies[0] == proxy then 0 else 1 + IndexOf(proxies[1..], proxy)
  }

  /** The proxy argument in get_backend_from_databases: the proxy, its position, and the next step. */
  function Choose(proxies: Option<seq<string>>, current: Option<string>, step: nat): (r: (string, Option<nat>, nat))
  {
    var proxy := if current.Some? then current.value else "";
    if proxies.None? then (proxy, None, step)
    else
      var n := |proxies.value|;
      if current.Some? then
        var i := IndexOf(proxies.value, proxy);
        (proxy, if i < n then Some(i) else None, if i + 1 >= n then 0 else i + 1)
      else if step >= n then ("", None, 0)
      else (proxies.value[step], Some(step), if step + 1 == n then 0 else step + 1)
  }

  /** The proxy of the target that is used. */
  function Used(proxy: string, current: Option<string>, answer: Answer): string {
    if current.Some? then proxy
    else if answer.explain then ""
    else if proxy == "" then answer.cfProxy
    else proxy
  }

  function Fails(answer: Answer): bool { answer.connectFails || (!answer.explain && answer.searchFails) }

  /** retry: whether to try again and why, and the variables then. */
  function Retry(s: Loop, proxy: string, answer: Answer): (Option<Why>, Loop) {
    if answer.found && proxy != "" && !answer.proxyWorks then
      if s.step != 0 then (Some(Failover), s.(proxyRetries := s.proxyRetries + 1, current := None))
      else (None, s.(current := None))
    else if answer.found && answer.retryOnFailure && s.sameRetries == 0 && s.proxyRetries == 0 then
      (Some(Same), s.(sameRetries := s.sameRetries + 1, step := 0, current := None))
    else (None, s)
  }

  /** One pass of the loop: the pass, and how it goes on. */
  function Once(proxies: Option<seq<string>>, s: Loop, why: Why, answer: Answer): (r: (Pass, Option<Why>, Loop)) {
    var (proxy, position, step) := Choose(proxies, s.current, s.step);
    var used := Used(proxy, s.current, answer);
    var (again, s') := if Fails(answer) then Retry(s.(step := step), used, answer) else (None, s.(step := step));
    (Pass(position, used, why), again, s')
  }

  function Length(proxies: Option<seq<string>>): nat {
    if proxies.None? then 0 else |proxies.value|
  }

  /** The passes from pass k on. */
  ghost predicate Passes(proxies: Option<seq<string>>, s: Loop, why: Why, env: nat -> Answer, k: nat, log: seq<Pass>)
    decreases |log|
  {
    log != [] &&
    var (pass, again, s') := Once(proxies, s, why, env(k));
    log[0] == pass && if again.None? then |log| == 1 else Passes(proxies, s', again.value, env, k + 1, log[1..])
  }

  /** What the loop's variables are worth: every pass so far has used up a step, or the one retry of
      the same target. */
  ghost predicate LoopOk(proxies: Option<seq<string>>, s: Loop, done: nat) {
    && (s.step == 0 || s.step < Length(proxies))
    && s.sameRetries <= 1 && done <= s.sameRetries + s.step
    && (done > 0 ==> s.current.None?)
    && (s.proxyRetries > 0 ==> s.step > 0)
    && (s.proxyRetries == 0 ==> s.step == 0 && done == s.sameRetries)
  }

  lemma OnceOk(proxies: Option<seq<string>>, s: Loop, why: Why, answer: Answer, done: nat)
    requires LoopOk(proxies, s, done)
    ensures var (pass, again, s') := Once(proxies, s, why, answer);
            && done + 1 <= 1 + (if Length(proxies) > 0 then Length(proxies) else 1)
            && (again.Some? ==> LoopOk(proxies, s', done + 1) && Fails(answer) && again.value != First)
            && (again == Some(Same) ==> done == 0 && s'.step == 0 && s'.sameRetries == 1)
            && (again == Some(Failover) ==> pass.position.Some? && s'.step == pass.position.value + 1 && !answer.proxyWorks)
  {
  }

  /** The loop of handle_search. */
  method HandleSearch(proxies: Option<seq<string>>, current: Option<string>, env: nat -> Answer) returns (log: seq<Pass>)
    ensures Passes(proxies, Loop(0, 0, 0, current), First, env, 0, log)
    ensures 1 <= |log| <= 1 + if Length(proxies) > 0 then Length(proxies) else 1
  {
    hide Once;
    var (s, why) := (Loop(0, 0, 0, current), First);
    log := [];
    ghost var (s0, states, whys) := (s, [s], [why]);
    while true
      invariant LoopOk(proxies, s, |log|)
      invariant |states| == |whys| == |log| + 1 && states[|log|] == s && whys[|log|] == why
      invariant states[0] == s0 && whys[0] == First
      invariant forall k :: 0 <= k < |log| ==> Once(proxies, states[k], whys[k], env(k)) == (log[k], Some(whys[k + 1]), states[k + 1])
      decreases 1 + Length(proxies) + 1 - |log|
    {
      OnceOk(proxies, s, why, env(|log|), |log|);
      var (pass, again, s') := Once(proxies, s, why, env(|log|));
      if again.None? {
        log := log + [pass];
        LogPasses(proxies, states, whys, env, log, 0);
        assert log[0..] == log;
        return;
      }
      log, s, why := log + [pass], s', again.value;
      states, whys := states + [s], whys + [why];
    }
  }

  lemma {:induction false} LogPasses(proxies: Option<seq<string>>, states: seq<Loop>, whys: seq<Why>, env: nat -> Answer, log: seq<Pass>, k: nat)
    requires k < |log| == |states| == |whys|
    requires forall i :: 0 <= i < |log| - 1 ==> Once(proxies, states[i], whys[i], env(i)) == (log[i], Some(whys[i + 1]), states[i + 1])
    requires var (pass, again, _) := Once(proxies, states[|log| - 1], whys[|log| - 1], env(|log| - 1));
             pass == log[|log| - 1] && again == None
    ensures Passes(proxies, states[k], whys[k], env, k, log[k..])
    decreases |log| - k
  {
    hide Once;
    assert log[k..][0] == log[k] && log[k..][1..] == log[k + 1..];
    if k + 1 < |log| {
      assert Once(proxies, states[k], whys[k], env(k)) == (log[k], Some(whys[k + 1]), states[k + 1]);
      LogPasses(proxies, states, whys, env, log, k + 1);
    }
  }

  // ---------- what the passes are ----------

  /** Why pass k came after the one before it. */
  ghost predicate Justified(log: seq<Pass>, env: nat -> Answer, from: nat, i: nat)
    requires 0 < i < |log|
  {
    if log[i].why == Failover then Next(log[i - 1], log[i]) && !env(from + i - 1).proxyWorks && Fails(env(from + i - 1))
    else log[i].why == Same && from + i == 1
  }

  lemma FirstPass(proxies: Option<seq<string>>, s: Loop, why: Why, env: nat -> Answer, k: nat, log: seq<Pass>)
    requires Passes(proxies, s, why, env, k, log)
    ensures log != [] && log[0].why == why
    ensures s.current.None? && s.step < Length(proxies) ==> log[0].position == Some(s.step)
  {
  }

  lemma {:induction false} PassesBounded(proxies: Option<seq<string>>, s: Loop, why: Why, env: nat -> Answer, k: nat, log: seq<Pass>)
    requires Passes(proxies, s, why, env, k, log) && LoopOk(proxies, s, k)
    ensures k + |log| <= 1 + if Length(proxies) > 0 then Length(proxies) else 1
    ensures forall i :: 0 < i < |log| ==> Justified(log, env, k, i)
    decreases |log|
  {
    OnceOk(proxies, s, why, env(k), k);
    FirstPass(proxies, s, why, env, k, log);
    hide Once;
    var (pass, again, s') := Once(proxies, s, why, env(k));
    if again.Some? {
      FirstPass(proxies, s', again.value, env, k + 1, log[1..]);
      PassesBounded(proxies, s', again.value, env, k + 1, log[1..]);
      assert log[1..][0] == log[1];
      forall i | 0 < i < |log| ensures Justified(log, env, k, i) {
        if i > 1 {
          assert log[i] == log[1..][i - 1] && log[i - 1] == log[1..][i - 2];
          assert Justified(log[1..], env, k + 1, i - 1);
        }
      }
    }
  }

  /** A failover takes the next position of the list. */
  ghost predicate Next(a: Pass, b: Pass) {
    a.position.Some? && b.position == Some(a.position.value + 1)
  }

  /** Whatever is outside does, the loop ends after as many passes as there are proxies, and one more;
      each failover takes the next position of the proxy list, and only because the proxy before it did
      not answer; the same target is retried at most once, before any failover. */
  lemma FailoverEnds(proxies: Option<seq<string>>, current: Option<string>, env: nat -> Answer, log: seq<Pass>)
    requires Passes(proxies, Loop(0, 0, 0, current), First, env, 0, log)
    ensures |log| <= 1 + if Length(proxies) > 0 then Length(proxies) else 1
    ensures forall i :: 0 < i < |log| ==> Justified(log, env, 0, i)
  {
    PassesBounded(proxies, Loop(0, 0, 0, current), First, env, 0, log);
  }

  /** Every target is made and fails, and no proxy answers. */
  ghost predicate AllDown(env: nat -> Answer) {
    forall k :: env(k).found && !env(k).explain && Fails(env(k)) && !env(k).proxyWorks
  }

  /** When no proxy answers, every proxy of the list is tried, in order. */
  lemma {:induction false} AllProxiesTried(proxies: seq<string>, s: Loop, why: Why, env: nat -> Answer, k: nat, log: seq<Pass>)
    requires proxies != [] && (forall i :: 0 <= i < |proxies| ==> proxies[i] != "")
    requires Passes(Some(proxies), s, why, env, k, log) && AllDown(env) && s.current.None? && s.step < |proxies|
    ensures |log| == |proxies| - s.step
    ensures forall i :: 0 <= i < |log| ==> log[i].position == Some(s.step + i) && log[i].proxy == proxies[s.step + i]
    decreases |log|
  {
    var (pass, again, s') := Once(Some(proxies), s, why, env(k));
    assert env(k).found;
    if again.Some? {
      AllProxiesTried(proxies, s', again.value, env, k + 1, log[1..]);
      forall i | 0 <= i < |log| ensures log[i].position == Some(s.step + i) && log[i].proxy == proxies[s.step + i] {
        if i > 0 { assert log[i] == log[1..][i - 1]; }
      }
    }
  }

  /** The proxy of a pass did not answer when it was checked. */
  predicate ProxyFails(pass: Pass, answer: Answer) {
    pass.proxy != "" && !answer.proxyWorks
  }

  predicate HasNext(proxies: Option<seq<string>>, pass: Pass) {
    pass.position.Some? && pass.position.value + 1 < Length(proxies)
  }

  /** Whether pass i is followed by another, and by which: when it has failed with a target, the next
      proxy of the list if its own did not answer; otherwise, if the target asks for it and nothing has
      been tried again yet, a new start of the list. */
  ghost predicate Follows(proxies: Option<seq<string>>, log: seq<Pass>, env: nat -> Answer, from: nat, i: nat)
    requires i < |log|
  {
    var (pass, answer) := (log[i], env(from + i));
    var failed := answer.found && (answer.connectFails || (!answer.explain && answer.searchFails));
    if failed && ProxyFails(pass, answer) && HasNext(proxies, pass) then
      i + 1 < |log| && log[i + 1].why == Failover && log[i + 1].position == Some(pass.position.value + 1)
    else if failed && !ProxyFails(pass, answer) && answer.retryOnFailure && from + i == 0 then
      i + 1 < |log| && log[i + 1].why == Same && log[i + 1].position == if Length(proxies) > 0 then Some(0) else None
    else i + 1 == |log|
  }

  /** Behind the first pass no connection is reused: the proxy is the one at the position, or else that
      of the target's profile; the explain database needs none. */
  ghost predicate ProxyOf(proxies: Option<seq<string>>, log: seq<Pass>, env: nat -> Answer, from: nat, i: nat)
    requires i < |log|
  {
    var (pass, answer) := (log[i], env(from + i));
    pass.proxy == if answer.explain then ""
                  else if proxies.Some? && pass.position.Some? && pass.position.value < |proxies.value| && proxies.value[pass.position.value] != ""
                  then proxies.value[pass.position.value]
                  else answer.cfProxy
  }

  /** A target that was not made has not failed: then nothing is tried again. */
  lemma OnceGoesOn(proxies: Option<seq<string>>, s: Loop, why: Why, answer: Answer, done: nat)
    requires LoopOk(proxies, s, done) && (s.proxyRetries == 0 && s.sameRetries == 0 <==> done == 0)
    ensures var (pass, again, s') := Once(proxies, s, why, answer);
            var failed := answer.found && (answer.connectFails || (!answer.explain && answer.searchFails));
            && (again == Some(Failover) <==> failed && ProxyFails(pass, answer) && HasNext(proxies, pass))
            && (again == Some(Same) <==> failed && !ProxyFails(pass, answer) && answer.retryOnFailure && done == 0)
            && (again == Some(Failover) ==> s'.current.None? && s'.step == pass.position.value + 1 && s'.proxyRetries > 0)
            && (again == Some(Same) ==> s'.current.None? && s'.step == 0 && s'.sameRetries > 0)
            && (s.current.None? && s.step < Length(proxies) ==> pass.position == Some(s.step))
            && (Length(proxies) == 0 ==> pass.position == None)
  {
  }

  lemma OnceProxy(proxies: Option<seq<string>>, s: Loop, why: Why, answer: Answer)
    requires s.current.None?
    ensures var pass := Once(proxies, s, why, answer).0;
            pass.proxy == if answer.explain then ""
                          else if proxies.Some? && pass.position.Some? && pass.position.value < |proxies.value| && proxies.value[pass.position.value] != ""
                          then proxies.value[pass.position.value]
                          else answer.cfProxy
  {
  }

  lemma {:induction false} PassesFollow(proxies: Option<seq<string>>, s: Loop, why: Why, env: nat -> Answer, k: nat, log: seq<Pass>)
    requires Passes(proxies, s, why, env, k, log) && LoopOk(proxies, s, k) && (s.proxyRetries == 0 && s.sameRetries == 0 <==> k == 0)
    ensures forall i :: 0 <= i < |log| ==> Follows(proxies, log, env, k, i)
    ensures forall i :: 0 <= i < |log| && (i > 0 || s.current.None?) ==> ProxyOf(proxies, log, env, k, i)
    decreases |log|
  {
    OnceGoesOn(proxies, s, why, env(k), k);
    OnceOk(proxies, s, why, env(k), k);
    if s.current.None? { OnceProxy(proxies, s, why, env(k)); }
    hide Once, ProxyFails;
    var (pass, again, s') := Once(proxies, s, why, env(k));
    if again.Some? {
      var rest := log[1..];
      PassesFollow(proxies, s', again.value, env, k + 1, rest);
      OnceGoesOn(proxies, s', again.value, env(k + 1), k + 1);
      assert rest[0] == log[1] && rest[0].why == again.value by { FirstPass(proxies, s', again.value, env, k + 1, rest); }
      assert Follows(proxies, log, env, k, 0);
      hide Follows, ProxyOf;
      forall i | 0 < i < |log| ensures Follows(proxies, log, env, k, i) && ProxyOf(proxies, log, env, k, i) {
        FollowsLater(proxies, log, env, k, i);
      }
    }
  }

  lemma FollowsLater(proxies: Option<seq<string>>, log: seq<Pass>, env: nat -> Answer, k: nat, i: nat)
    requires 0 < i < |log|
    requires Follows(proxies, log[1..], env, k + 1, i - 1) && ProxyOf(proxies, log[1..], env, k + 1, i - 1)
    ensures Follows(proxies, log, env, k, i) && ProxyOf(proxies, log, env, k, i)
  {
    assert log[i] == log[1..][i - 1] && (i + 1 < |log| ==> log[i + 1] == log[1..][i]);
    hide HasNext, ProxyFails;
  }

  /** Every pass is followed by the one the conditions call for, and by none otherwise. */
  lemma EveryPassFollows(proxies: Option<seq<string>>, current: Option<string>, env: nat -> Answer, log: seq<Pass>)
    requires Passes(proxies, Loop(0, 0, 0, current), First, env, 0, log)
    ensures forall i :: 0 <= i < |log| ==> Follows(proxies, log, env, 0, i)
    ensures forall i :: 0 <= i < |log| && (i > 0 || current.None?) ==> ProxyOf(proxies, log, env, 0, i)
  {
    PassesFollow(proxies, Loop(0, 0, 0, current), First, env, 0, log);
  }
}
