/** The thread pool observer as an object: the deques, the pipe and the counters, and the connections its
    messages point to. src/thread_pool_observer.cpp:151-276, src/filter_frontend_net.cpp:206-294. */
module ThreadPoolClass {
  import P = ThreadPool
  import opened ThreadPoolInvariant
  import opened Options

  /** ZAssocChild, as far as the messages use it; id is the number of its session. */
  class Child {
    const id: nat
    var noRequests: int
    var closed: bool

    constructor (id: nat)
      ensures this.id == id && noRequests == 0 && !closed
    {
      this.id, noRequests, closed := id, 0, false;
    }
  }

  /** ThreadPoolPackage: a message, by its number, and the connection it points to. */
  datatype Job = Job(id: nat, child: Child)

  function Ids(jobs: seq<Job>): (ids: seq<nat>)
    ensures |ids| == |jobs| && forall i :: 0 <= i < |jobs| ==> ids[i] == jobs[i].id
  {
    seq(|jobs|, i requires 0 <= i < |jobs| => jobs[i].id)
  }

  class Observer {
    var input: seq<Job>
    var output: seq<Job>
    var pipe: nat
    var noThreads: nat
    var waitingThreads: nat
    const maxThreads: nat
    ghost var children: map<nat, Child>
    ghost var pool: P.Pool  // what the fields stand for

    /** The job is a message of the pool that points to its connection. */
    ghost predicate Known(job: Job)
      reads this
    {
      && job.child.id in children && children[job.child.id] == job.child
      && job.id in pool.messages && pool.messages[job.id].conn == job.child.id
    }

    ghost predicate Shown()
      reads this, children.Values
    {
      && pool.conns.Keys == children.Keys
      && forall c :: c in children ==> children[c].id == c && pool.conns[c] == P.Connection(children[c].noRequests, children[c].closed)
    }

    ghost predicate Valid()
      reads this, children.Values
    {
      && Shown()
      && pool.input == Ids(input) && pool.output == Ids(output)
      && pool.pipe == pipe && pool.noThreads == noThreads && pool.asleep + pool.woken == waitingThreads
      && (forall i :: 0 <= i < |input| ==> Known(input[i]))
      && (forall i :: 0 <= i < |output| ==> Known(output[i]))
    }

    method AddWorker()
      requires Valid()
      modifies this`noThreads, this`pool
      ensures Valid() && pool == P.AddWorker(old(pool), maxThreads)
    {
      ghost var was := pool;
      if waitingThreads == 0 && noThreads < maxThreads {
        noThreads := noThreads + 1;
      }
      pool := P.AddWorker(was, maxThreads);
    }

    /** The loop of put, from its test on; it waits when the queue is full. */
    method TryPush(m: Job) returns (pushed: bool)
      requires Valid() && Known(m)
      modifies this`input, this`pool
      ensures Valid() && pool == P.TryPush(old(pool), m.id) && pushed == (pool.manager == P.Idle)
    {
      ghost var was := pool;
      pushed := !(|input| >= noThreads * P.QUEUE_SIZE_PER_THREAD);
      if pushed {
        input := input + [m];
      }
      pool := P.TryPush(was, m.id);
    }

    /** One pass of the region in which a worker waits for input, from the top of its loop or after it
        has been woken: it takes the first message, or goes to sleep. */
    method TakeInput(step: P.Step, limits: P.Limits) returns (m: Option<Job>)
      requires Valid() && (step.Loop? || step.Wake?) && P.Enabled(pool, step)
      modifies this`input, this`waitingThreads, this`pool
      ensures Valid() && pool == P.Apply(old(pool), step, limits)
      ensures m == if old(input) == [] then None else Some(old(input[0]))
    {
      hide P.Apply, P.TakeInput;
      ghost var was := pool;
      Taken(pool, step, limits);
      if step.Loop? {
        waitingThreads := waitingThreads + 1;
      }
      if |input| == 0 {
        m := None;
      } else {
        waitingThreads := waitingThreads - 1;
        m := Some(input[0]);
        assert m.value.id == was.input[0];
        input := input[1..];
        assert Ids(input) == was.input[1..];
      }
      pool := P.Apply(was, step, limits);
    }

    static lemma Taken(p: P.Pool, step: P.Step, limits: P.Limits)
      requires (step.Loop? || step.Wake?) && P.Enabled(p, step)
      ensures var q := P.Apply(p, step, limits);
              && q.input == (if p.input == [] then [] else p.input[1..]) && q.output == p.output && q.conns == p.conns
              && q.pipe == p.pipe && q.noThreads == p.noThreads
              && q.asleep + q.woken == p.asleep + p.woken + B(step.Loop?) - B(p.input != [])
              && (forall id :: id in p.messages ==> id in q.messages && q.messages[id].conn == p.messages[id].conn)
    {
    }

    method PutOutput(m: Job)
      requires Valid() && Known(m)
      modifies this`output, this`pipe, this`pool
      ensures Valid() && pool == P.PutOutput(old(pool), m.id)
    {
      ghost var was := pool;
      output := output + [m];
      pipe := pipe + 1;
      assert Ids(output) == was.output + [m.id];
      pool := P.PutOutput(was, m.id);
    }

    /** One pass of socketNotify: the first message of the output queue delivers its result. */
    method DeliverOutput() returns (delivered: bool)
      requires Valid()
      modifies this`output, this`pool, children.Values
      ensures Valid() && delivered == (old(output) != [])
      ensures if delivered then
                old(pool).output != [] && old(pool).output[0] in old(pool).messages
                && old(pool).messages[old(pool).output[0]].conn in old(pool).conns && pool == P.DeliverOutput(old(pool))
              else pool == old(pool)
    {
      if output == [] {
        return false;
      }
      ghost var was := pool;
      var out := output[0];
      assert Known(out) && out.id == was.output[0];
      assert out.child.id in was.conns.Keys;
      output := output[1..];
      assert Ids(output) == was.output[1..];
      out.child.noRequests := out.child.noRequests - 1;
      pool := P.DeliverOutput(was);
      return true;
    }

    /** The queued messages of a session are taken out of the deque, one by one. */
    method RemoveJobs(ses: nat)
      requires Valid() && ses in children
      modifies this`input, children[ses]
      ensures Ids(input) == P.Kept(pool.messages, old(Ids(input)), ses)
      ensures children[ses].noRequests == old(children[ses].noRequests) + |input| - |old(input)| && children[ses].closed == old(children[ses].closed)
      ensures forall i :: 0 <= i < |input| ==> Known(input[i])
    {
      hide P.Kept, Ids;
      var it: nat := 0;
      Split(pool.messages, input, 0, ses);
      while it < |input|
        invariant it <= |input|
        invariant P.Kept(pool.messages, old(Ids(input)), ses) == Ids(input[..it]) + P.Kept(pool.messages, Ids(input[it..]), ses)
        invariant children[ses].noRequests == old(children[ses].noRequests) + |input| - |old(input)|
        invariant children[ses].closed == old(children[ses].closed)
        invariant forall i :: 0 <= i < |input| ==> Known(input[i])
        decreases |input| - it
      {
        assert Known(input[it]);
        KeptStep(pool.messages, input, it, ses);
        if input[it].child.id == ses {
          var m := input[it];
          m.child.noRequests := m.child.noRequests - 1;
          input := input[..it] + input[it + 1..];
        } else {
          it := it + 1;
        }
      }
      assert it == |input|;
      KeptEnd(pool.messages, input, ses);
    }

    method Cleanup(ses: nat)
      requires Valid() && ses in children
      modifies this`input, this`pool, children[ses]
      ensures Valid() && pool == P.Cleanup(old(pool), ses)
    {
      hide P.Kept;
      assert ses in pool.conns.Keys;
      CleanedConns(pool, ses);
      RemoveJobs(ses);
      pool := P.Cleanup(pool, ses);
      assert Shown();
    }

    static lemma CleanedConns(p: P.Pool, ses: nat)
      requires ses in p.conns
      ensures forall id :: id in p.messages ==>
        id in P.Cleanup(p, ses).messages && P.Cleanup(p, ses).messages[id].conn == p.messages[id].conn
    {
    }

    static lemma Split(messages: map<nat, P.Message>, input: seq<Job>, it: nat, ses: nat)
      requires it == 0
      ensures P.Kept(messages, Ids(input), ses) == Ids(input[..it]) + P.Kept(messages, Ids(input[it..]), ses)
    {
      assert input[0..] == input && Ids(input[..0]) == [];
    }

    static lemma KeptStep(messages: map<nat, P.Message>, input: seq<Job>, it: nat, ses: nat)
      requires it < |input| && input[it].id in messages && messages[input[it].id].conn == input[it].child.id
      ensures var rest := P.Kept(messages, Ids(input[it..]), ses);
              if input[it].child.id == ses then
                var x := input[..it] + input[it + 1..];
                it <= |x| && Ids(input[..it]) + rest == Ids(x[..it]) + P.Kept(messages, Ids(x[it..]), ses)
              else Ids(input[..it]) + rest == Ids(input[..it + 1]) + P.Kept(messages, Ids(input[it + 1..]), ses)
    {
      assert Ids(input[it..])[1..] == Ids(input[it + 1..]);
      assert Ids(input[it..])[0] == input[it].id;
      var x := input[..it] + input[it + 1..];
      assert x[..it] == input[..it] && x[it..] == input[it + 1..];
      assert Ids(input[..it + 1]) == Ids(input[..it]) + [input[it].id];
    }

    static lemma KeptEnd(messages: map<nat, P.Message>, input: seq<Job>, ses: nat)
      ensures Ids(input[..|input|]) + P.Kept(messages, Ids(input[|input|..]), ses) == Ids(input)
    {
      assert input[..|input|] == input && Ids(input[|input|..]) == [];
    }
  }
}
