/**
 * The host side of the binary link to a forked worker, as a sequential state machine: a
 * handler slot with at most one registration, consume-once results and exception slots, a
 * last-write-wins plan slot, and the handler loop that serves the worker's frames.
 */
module BinaryLink {
  import opened Wrappers

  // ---------------------------------------------------------------------------------------
  // Values that cross the link
  // ---------------------------------------------------------------------------------------

  datatype VerboseMode = Silent | Normal | Extra

  /** Verbosity level used when the options leave it unset. */
  const DefaultVerbosity: VerboseMode := Normal

  function Ordinal(m: VerboseMode): nat
  {
    match m
    case Silent => 0
    case Normal => 1
    case Extra => 2
  }

  /** The run options; the link reads only their verbosity, the rest is carried verbatim. */
  datatype Options = Options(verbosity: Option<VerboseMode>, settings: seq<string>)

  /** opts.verbosity().orElse(Defaults.VERBOSITY).equalsOrHigherThan(EXTRA) */
  predicate PrintsDetail(opts: Options)
  {
    var mode := if opts.verbosity.Some? then opts.verbosity.value else DefaultVerbosity;
    Ordinal(mode) >= Ordinal(Extra)
  }

  datatype ActionPlan = ActionPlan(invocations: seq<string>)

  datatype BenchmarkException = BenchmarkException(message: string)

  datatype BenchmarkResult = BenchmarkResult(id: nat)

  /** Benchmark results keyed by benchmark parameters (a multimap). */
  type Results = map<string, seq<BenchmarkResult>>

  /** A method of the formatted-output interface: its simple name and the name it is
      looked up by, which ClassConventions derives from its signature. */
  datatype MethodDecl = MethodDecl(simpleName: string, name: string)

  datatype InfraRequest = OptionsRequest | ActionPlanRequest | UnknownRequest

  datatype Stream = Out | Err

  /** The objects a worker sends; OtherObject is a deserialized object of no frame class. */
  datatype Frame =
    | OutputFormatFrame(call: string, args: seq<string>)
    | InfraFrame(request: InfraRequest)
    | ResultsFrame(res: Results)
    | ExceptionFrame(error: BenchmarkException)
    | OutputFrame(stream: Stream, data: seq<bv8>)
    | FinishingFrame
    | OtherObject

  /** One read from the object stream: an object, a null, or a read that throws (a corrupted
      stream, or the end of the stream). */
  datatype Incoming = Read(frame: Frame) | ReadNull | ReadFailed

  /** The frames the host writes back to the worker. */
  datatype Reply = OptionsReply(opts: Options) | ActionPlanReply(plan: Option<ActionPlan>)

  /** What the host prints on its formatted-output sink. */
  datatype Event =
    | DuplicateMethods(current: MethodDecl, previous: MethodDecl)
    | UnknownMethod(name: string)
    | Forwarded(name: string, args: seq<string>)
    | LinkFailed
    | FailureDetail(error: LinkError)

  datatype LinkError = CorruptStream | EndOfStream | UnknownInfraRequest

  // ---------------------------------------------------------------------------------------
  // The method and forbidden tables
  // ---------------------------------------------------------------------------------------

  datatype Tables = Tables(methods: map<string, MethodDecl>, forbidden: set<string>)

  predicate IsLifecycle(m: MethodDecl)
  {
    m.simpleName == "startRun" || m.simpleName == "endRun"
  }

  predicate RepeatsEarlier(decls: seq<MethodDecl>, k: nat)
    requires k < |decls|
  {
    exists i :: 0 <= i < k && decls[i].name == decls[k].name
  }

  predicate DistinctNames(decls: seq<MethodDecl>)
  {
    forall i, j :: 0 <= i < j < |decls| ==> decls[i].name != decls[j].name
  }

  /** The tables the constructor builds from the interface's methods, in order; None when a
      name repeats (IllegalStateException). */
  function Enumerated(decls: seq<MethodDecl>): Option<Tables>
  {
    if decls == [] then Some(Tables(map[], {}))
    else
      var m := decls[|decls| - 1];
      match Enumerated(decls[..|decls| - 1])
      case None => None
      case Some(t) =>
        if m.name in t.methods then None
        else Some(Tables(t.methods[m.name := m], t.forbidden + (if IsLifecycle(m) then {m.name} else {})))
  }

  /** The names of the methods. */
  function Names(decls: seq<MethodDecl>): set<string>
  {
    set k | 0 <= k < |decls| :: decls[k].name
  }

  /** The names of the lifecycle methods startRun and endRun. */
  function LifecycleNames(decls: seq<MethodDecl>): set<string>
  {
    set k | 0 <= k < |decls| && IsLifecycle(decls[k]) :: decls[k].name
  }

  lemma NamesSnoc(decls: seq<MethodDecl>)
    requires decls != []
    ensures Names(decls) == Names(decls[..|decls| - 1]) + {decls[|decls| - 1].name}
    ensures LifecycleNames(decls) ==
      LifecycleNames(decls[..|decls| - 1]) + (if IsLifecycle(decls[|decls| - 1]) then {decls[|decls| - 1].name} else {})
  {
    var n := |decls| - 1;
    var init := decls[..n];
    forall x | x in Names(decls)
      ensures x in Names(init) + {decls[n].name}
    {
      var k :| 0 <= k < |decls| && decls[k].name == x;
      if k < n {
        assert init[k].name == x;
      }
    }
    forall x | x in Names(init)
      ensures x in Names(decls)
    {
      var k :| 0 <= k < n && init[k].name == x;
      assert decls[k].name == x;
    }
    assert decls[n].name in Names(decls);
    forall x | x in LifecycleNames(decls)
      ensures x in LifecycleNames(init) + (if IsLifecycle(decls[n]) then {decls[n].name} else {})
    {
      var k :| 0 <= k < |decls| && IsLifecycle(decls[k]) && decls[k].name == x;
      if k < n {
        assert init[k].name == x;
      }
    }
    forall x | x in LifecycleNames(init)
      ensures x in LifecycleNames(decls)
    {
      var k :| 0 <= k < n && IsLifecycle(init[k]) && init[k].name == x;
      assert decls[k].name == x;
    }
    if IsLifecycle(decls[n]) {
      assert decls[n].name in LifecycleNames(decls);
    }
  }

  /** Building the tables fails exactly when two methods share a name; on success the method
      table is keyed by exactly the methods' names. */
  lemma {:induction false} EnumeratedSucceeds(decls: seq<MethodDecl>)
    ensures Enumerated(decls).Some? <==> DistinctNames(decls)
    ensures Enumerated(decls).Some? ==> Enumerated(decls).value.methods.Keys == Names(decls)
    decreases |decls|
  {
    if decls != [] {
      var n := |decls| - 1;
      var init, m := decls[..n], decls[n];
      EnumeratedSucceeds(init);
      NamesSnoc(decls);
      if Enumerated(init).Some? {
        var t := Enumerated(init).value;
        if m.name in t.methods {
          var k :| 0 <= k < n && init[k].name == m.name;
          assert decls[k].name == decls[n].name;
        } else {
          forall i, j | 0 <= i < j < |decls|
            ensures decls[i].name != decls[j].name
          {
            if j == n {
              assert init[i].name in Names(init);
            } else {
              assert init[i].name != init[j].name;
            }
          }
        }
      } else {
        var i, j :| 0 <= i < j < n && init[i].name == init[j].name;
        assert decls[i].name == decls[j].name;
      }
    }
  }

  /** On success the method table maps every name to the method of that name. */
  lemma {:induction false} EnumeratedMethods(decls: seq<MethodDecl>)
    requires Enumerated(decls).Some?
    ensures forall k :: 0 <= k < |decls| ==>
      decls[k].name in Enumerated(decls).value.methods && Enumerated(decls).value.methods[decls[k].name] == decls[k]
    decreases |decls|
  {
    if decls != [] {
      var n := |decls| - 1;
      var init, m := decls[..n], decls[n];
      EnumeratedMethods(init);
      EnumeratedSucceeds(decls);
      var t' := Enumerated(decls).value;
      forall k | 0 <= k < |decls|
        ensures decls[k].name in t'.methods && t'.methods[decls[k].name] == decls[k]
      {
        if k < n {
          assert decls[k] == init[k];
          assert decls[k].name != m.name;
        }
      }
    }
  }

  /** On success the forbidden set holds exactly the names of startRun and endRun. */
  lemma {:induction false} EnumeratedForbidden(decls: seq<MethodDecl>)
    requires Enumerated(decls).Some?
    ensures Enumerated(decls).value.forbidden == LifecycleNames(decls)
    decreases |decls|
  {
    if decls != [] {
      EnumeratedForbidden(decls[..|decls| - 1]);
      NamesSnoc(decls);
    }
  }

  /** Building the tables fails exactly when two methods share a name; otherwise the method
      table maps every name to its method, and the forbidden set holds exactly the names of the
      lifecycle methods startRun and endRun, all of them keys of the table. */
  lemma EnumeratedTables(decls: seq<MethodDecl>)
    ensures Enumerated(decls).Some? <==> DistinctNames(decls)
    ensures Enumerated(decls).Some? ==>
      var t := Enumerated(decls).value;
      && t.methods.Keys == Names(decls)
      && (forall k :: 0 <= k < |decls| ==> t.methods[decls[k].name] == decls[k])
      && t.forbidden == LifecycleNames(decls)
      && t.forbidden <= t.methods.Keys
  {
    EnumeratedSucceeds(decls);
    if Enumerated(decls).Some? {
      EnumeratedMethods(decls);
      EnumeratedForbidden(decls);
      forall x | x in LifecycleNames(decls)
        ensures x in Names(decls)
      {
        var k :| 0 <= k < |decls| && IsLifecycle(decls[k]) && decls[k].name == x;
      }
    }
  }

  /** One more method: the tables gain its name, or building them fails on a repeat. */
  lemma EnumeratedSnoc(decls: seq<MethodDecl>, k: nat)
    requires k < |decls| && Enumerated(decls[..k]).Some?
    ensures var t, m := Enumerated(decls[..k]).value, decls[k];
      Enumerated(decls[..k + 1]) ==
        if m.name in t.methods then None
        else Some(Tables(t.methods[m.name := m], t.forbidden + (if IsLifecycle(m) then {m.name} else {})))
  {
    assert decls[..k + 1][..k] == decls[..k];
  }

  /** A name already in the tables of a prefix belongs to an earlier method, the one it maps to. */
  lemma EarlierNamesake(decls: seq<MethodDecl>, k: nat)
    requires k < |decls| && Enumerated(decls[..k]).Some?
    ensures var t := Enumerated(decls[..k]).value;
      decls[k].name in t.methods <==> RepeatsEarlier(decls, k)
    ensures var t := Enumerated(decls[..k]).value;
      decls[k].name in t.methods ==>
        exists i :: 0 <= i < k && decls[i].name == decls[k].name && t.methods[decls[k].name] == decls[i]
  {
    var init := decls[..k];
    EnumeratedSucceeds(init);
    EnumeratedMethods(init);
    var t := Enumerated(init).value;
    if decls[k].name in t.methods {
      var i :| 0 <= i < k && init[i].name == decls[k].name;
      assert t.methods[decls[k].name] == decls[i];
    }
    if RepeatsEarlier(decls, k) {
      var i :| 0 <= i < k && decls[i].name == decls[k].name;
      assert init[i].name in Names(init);
    }
  }

  /** Once a prefix has a repeated name, so does every extension of it. */
  lemma {:induction false} FailurePersists(decls: seq<MethodDecl>, n: nat)
    requires n <= |decls| && Enumerated(decls[..n]).None?
    ensures Enumerated(decls).None?
    decreases |decls| - n
  {
    if n < |decls| {
      assert decls[..n + 1][..n] == decls[..n];
      FailurePersists(decls, n + 1);
    } else {
      assert decls[..n] == decls;
    }
  }

  // ---------------------------------------------------------------------------------------
  // The handler loop as a function
  // ---------------------------------------------------------------------------------------

  /** What the handler reads besides the frames: the options, the tables and the plan slot. */
  datatype Env = Env(opts: Options, methods: map<string, MethodDecl>, forbidden: set<string>,
                     plan: Option<ActionPlan>)

  /** What the handler changes: the results and exception slots, the host's output and the
      frames written back to the worker. */
  datatype LinkView = LinkView(results: Results, exception: Option<BenchmarkException>,
                               log: seq<Event>, replies: seq<Reply>)

  datatype Status = Continue | Finished | Failed(error: LinkError)

  function Values(m: Results, key: string): seq<BenchmarkResult>
  {
    if key in m then m[key] else []
  }

  /** Multimap merge: every key's values from both sides, the receiver's first. */
  function MergeResults(m: Results, o: Results): (r: Results)
    ensures r.Keys == m.Keys + o.Keys
  {
    map key | key in m.Keys + o.Keys :: Values(m, key) + Values(o, key)
  }

  lemma MergeResultsIdentity(m: Results)
    ensures MergeResults(m, map[]) == m
    ensures MergeResults(map[], m) == m
  {
    assert forall key | key in m :: Values(m, key) + [] == m[key];
    assert forall key | key in m :: [] + Values(m, key) == m[key];
  }

  lemma ValuesMerge(m: Results, o: Results, key: string)
    ensures Values(MergeResults(m, o), key) == Values(m, key) + Values(o, key)
  {
  }

  lemma AppendAssociative(x: seq<BenchmarkResult>, y: seq<BenchmarkResult>, z: seq<BenchmarkResult>)
    ensures x + y + z == x + (y + z)
  {
  }

  lemma MergeResultsAssociativeAt(a: Results, b: Results, c: Results, key: string)
    ensures Values(MergeResults(MergeResults(a, b), c), key) == Values(MergeResults(a, MergeResults(b, c)), key)
  {
    var ab, bc := MergeResults(a, b), MergeResults(b, c);
    ValuesMerge(a, b, key);
    ValuesMerge(b, c, key);
    ValuesMerge(ab, c, key);
    ValuesMerge(a, bc, key);
    AppendAssociative(Values(a, key), Values(b, key), Values(c, key));
  }

  /** Merging batches one after the other is merging their merge. */
  lemma MergeResultsAssociative(a: Results, b: Results, c: Results)
    ensures MergeResults(MergeResults(a, b), c) == MergeResults(a, MergeResults(b, c))
  {
    var l, r := MergeResults(MergeResults(a, b), c), MergeResults(a, MergeResults(b, c));
    forall key | key in l.Keys
      ensures l[key] == r[key]
    {
      MergeResultsAssociativeAt(a, b, c, key);
    }
    assert l.Keys == r.Keys;
  }

  /** The forwarding decision for a formatted-output call: an unknown name is warned about and
      dropped, a forbidden name is dropped silently, any other is forwarded once. */
  function ForwardEvents(env: Env, name: string, args: seq<string>): (evs: seq<Event>)
    ensures |evs| <= 1
    ensures Forwarded(name, args) in evs <==> name in env.methods && name !in env.forbidden
    ensures UnknownMethod(name) in evs <==> name !in env.methods
  {
    if name !in env.methods then [UnknownMethod(name)]
    else if name in env.forbidden then []
    else [Forwarded(name, args)]
  }

  /** Whether reading this object ends the loop, and how. */
  function StatusOf(x: Incoming): Status
  {
    match x
    case ReadNull => Finished
    case ReadFailed => Failed(CorruptStream)
    case Read(FinishingFrame) => Finished
    case Read(InfraFrame(UnknownRequest)) => Failed(UnknownInfraRequest)
    case Read(_) => Continue
  }

  /** The effect of one object on the handler's view. */
  function Effect(env: Env, v: LinkView, x: Incoming): LinkView
  {
    match x
    case Read(OutputFormatFrame(name, args)) => v.(log := v.log + ForwardEvents(env, name, args))
    case Read(InfraFrame(OptionsRequest)) => v.(replies := v.replies + [OptionsReply(env.opts)])
    case Read(InfraFrame(ActionPlanRequest)) => v.(replies := v.replies + [ActionPlanReply(env.plan)])
    case Read(ResultsFrame(res)) => v.(results := MergeResults(v.results, res))
    case Read(ExceptionFrame(e)) => v.(exception := Some(e))
    case _ => v
  }

  function Step(env: Env, v: LinkView, x: Incoming): (LinkView, Status)
  {
    (Effect(env, v, x), StatusOf(x))
  }

  /** Reads the objects in order until one ends the loop. */
  function Steps(env: Env, v: LinkView, input: seq<Incoming>): (LinkView, Status)
    decreases |input|
  {
    if input == [] then (v, Continue)
    else
      var (v', status) := Step(env, v, input[0]);
      if status != Continue then (v', status) else Steps(env, v', input[1..])
  }

  /** The diagnostic printed when the loop fails: one line, and the error itself only at
      EXTRA verbosity. */
  function Diagnostics(opts: Options, status: Status): seq<Event>
  {
    if status.Failed? then [LinkFailed] + (if PrintsDetail(opts) then [FailureDetail(status.error)] else [])
    else []
  }

  /** A whole run of the handler: the loop, then the failure report; running out of objects
      without a finishing frame is a failed read at the end of the stream. */
  function Served(env: Env, v: LinkView, input: seq<Incoming>): LinkView
  {
    var (v', status) := Steps(env, v, input);
    var ending := if status == Continue then Failed(EndOfStream) else status;
    v'.(log := v'.log + Diagnostics(env.opts, ending))
  }

  /** Objects are processed in arrival order: running a + b is running a, then b if a did not
      end the loop. */
  lemma {:induction false} StepsAppend(env: Env, v: LinkView, a: seq<Incoming>, b: seq<Incoming>)
    ensures Steps(env, v, a + b) ==
      if Steps(env, v, a).1 != Continue then Steps(env, v, a)
      else Steps(env, Steps(env, v, a).0, b)
    decreases |a|
  {
    if a == [] {
      assert a + b == b;
    } else {
      assert (a + b)[0] == a[0];
      assert (a + b)[1..] == a[1..] + b;
      var (v', status) := Step(env, v, a[0]);
      if status == Continue {
        StepsAppend(env, v', a[1..], b);
      }
    }
  }

  /** Objects after the one that ends the loop have no effect. */
  lemma StopIgnoresRest(env: Env, v: LinkView, a: seq<Incoming>, rest: seq<Incoming>)
    requires Steps(env, v, a).1 != Continue
    ensures Served(env, v, a + rest) == Served(env, v, a)
  {
    StepsAppend(env, v, a, rest);
  }

  // Independent descriptions of what a run does to each part of the view.

  /** The results pushed before the loop ends, merged in order. */
  function Pushed(input: seq<Incoming>): Results
    decreases |input|
  {
    if input == [] then map[]
    else
      var mine := if input[0].Read? && input[0].frame.ResultsFrame? then input[0].frame.res else map[];
      if StatusOf(input[0]) != Continue then mine else MergeResults(mine, Pushed(input[1..]))
  }

  /** The exception of the last exception frame before the loop ends, if any. */
  function LastException(prior: Option<BenchmarkException>, input: seq<Incoming>): Option<BenchmarkException>
    decreases |input|
  {
    if input == [] then prior
    else
      var now := if input[0].Read? && input[0].frame.ExceptionFrame? then Some(input[0].frame.error) else prior;
      if StatusOf(input[0]) != Continue then now else LastException(now, input[1..])
  }

  /** One answer per infrastructure request before the loop ends, in order. */
  function Answers(env: Env, input: seq<Incoming>): seq<Reply>
    decreases |input|
  {
    if input == [] then []
    else
      var mine :=
        if input[0] == Read(InfraFrame(OptionsRequest)) then [OptionsReply(env.opts)]
        else if input[0] == Read(InfraFrame(ActionPlanRequest)) then [ActionPlanReply(env.plan)]
        else [];
      if StatusOf(input[0]) != Continue then mine else mine + Answers(env, input[1..])
  }

  /** The forwarding events of the formatted-output calls before the loop ends, in order. */
  function ForwardLog(env: Env, input: seq<Incoming>): seq<Event>
    decreases |input|
  {
    if input == [] then []
    else
      var mine :=
        if input[0].Read? && input[0].frame.OutputFormatFrame?
        then ForwardEvents(env, input[0].frame.call, input[0].frame.args) else [];
      if StatusOf(input[0]) != Continue then mine else mine + ForwardLog(env, input[1..])
  }

  /** How the loop ends: at the first object that ends it, or at the end of the stream. */
  function Ending(input: seq<Incoming>): Status
    decreases |input|
  {
    if input == [] then Failed(EndOfStream)
    else if StatusOf(input[0]) != Continue then StatusOf(input[0])
    else Ending(input[1..])
  }

  lemma {:induction false} StepsResults(env: Env, v: LinkView, input: seq<Incoming>)
    ensures Steps(env, v, input).0.results == MergeResults(v.results, Pushed(input))
    decreases |input|
  {
    if input == [] {
      MergeResultsIdentity(v.results);
    } else {
      var x := input[0];
      var v' := Effect(env, v, x);
      var mine := if x.Read? && x.frame.ResultsFrame? then x.frame.res else map[];
      assert v'.results == MergeResults(v.results, mine) by {
        if !(x.Read? && x.frame.ResultsFrame?) {
          MergeResultsIdentity(v.results);
        }
      }
      if StatusOf(x) == Continue {
        StepsResults(env, v', input[1..]);
        MergeResultsAssociative(v.results, mine, Pushed(input[1..]));
      }
    }
  }

  lemma {:induction false} StepsException(env: Env, v: LinkView, input: seq<Incoming>)
    ensures Steps(env, v, input).0.exception == LastException(v.exception, input)
    decreases |input|
  {
    if input != [] && StatusOf(input[0]) == Continue {
      StepsException(env, Effect(env, v, input[0]), input[1..]);
    }
  }

  lemma {:induction false} StepsReplies(env: Env, v: LinkView, input: seq<Incoming>)
    ensures Steps(env, v, input).0.replies == v.replies + Answers(env, input)
    decreases |input|
  {
    if input != [] && StatusOf(input[0]) == Continue {
      var v' := Effect(env, v, input[0]);
      StepsReplies(env, v', input[1..]);
      assert v'.replies == v.replies + Answers(env, [input[0]]);
    }
  }

  lemma {:induction false} StepsLog(env: Env, v: LinkView, input: seq<Incoming>)
    ensures Steps(env, v, input).0.log == v.log + ForwardLog(env, input)
    decreases |input|
  {
    if input != [] && StatusOf(input[0]) == Continue {
      var v' := Effect(env, v, input[0]);
      StepsLog(env, v', input[1..]);
      assert v'.log == v.log + ForwardLog(env, [input[0]]);
    }
  }

  lemma {:induction false} StepsEnding(env: Env, v: LinkView, input: seq<Incoming>)
    ensures (if Steps(env, v, input).1 == Continue then Failed(EndOfStream) else Steps(env, v, input).1) == Ending(input)
    decreases |input|
  {
    if input != [] && StatusOf(input[0]) == Continue {
      StepsEnding(env, Effect(env, v, input[0]), input[1..]);
    }
  }

  /** A served run merges every pushed batch into the results slot, leaves the last pushed
      exception in the exception slot, answers every request in order with the options or the
      current plan, forwards or drops each formatted-output call, and reports a failure with
      one line plus, at EXTRA verbosity, the error. */
  lemma ServedCharacterized(env: Env, v: LinkView, input: seq<Incoming>)
    ensures var w := Served(env, v, input);
      && w.results == MergeResults(v.results, Pushed(input))
      && w.exception == LastException(v.exception, input)
      && w.replies == v.replies + Answers(env, input)
      && w.log == v.log + ForwardLog(env, input) + Diagnostics(env.opts, Ending(input))
  {
    StepsResults(env, v, input);
    StepsException(env, v, input);
    StepsReplies(env, v, input);
    StepsLog(env, v, input);
    StepsEnding(env, v, input);
  }

  /** A worker asks for the options and the plan, pushes one batch, finishes, and pushes
      another batch after finishing: both requests are answered in order, only the first batch
      is merged, and no failure is reported. */
  lemma FinishedSession(env: Env, v: LinkView, batch: Results, late: Results)
    ensures var input := [Read(InfraFrame(OptionsRequest)), Read(InfraFrame(ActionPlanRequest)),
                          Read(ResultsFrame(batch)), Read(FinishingFrame), Read(ResultsFrame(late))];
      Served(env, v, input) ==
        v.(results := MergeResults(v.results, batch),
           replies := v.replies + [OptionsReply(env.opts), ActionPlanReply(env.plan)])
  {
    var session := [Read(InfraFrame(OptionsRequest)), Read(InfraFrame(ActionPlanRequest)),
                    Read(ResultsFrame(batch)), Read(FinishingFrame)];
    var v1 := v.(replies := v.replies + [OptionsReply(env.opts)]);
    var v2 := v1.(replies := v1.replies + [ActionPlanReply(env.plan)]);
    var v3 := v2.(results := MergeResults(v.results, batch));
    assert Steps(env, v3, session[3..]) == (v3, Finished);
    assert Steps(env, v2, session[2..]) == Steps(env, v3, session[3..]);
    assert Steps(env, v1, session[1..]) == Steps(env, v2, session[2..]);
    assert Steps(env, v, session) == Steps(env, v1, session[1..]);
    StopIgnoresRest(env, v, session, [Read(ResultsFrame(late))]);
    assert session + [Read(ResultsFrame(late))] ==
      [Read(InfraFrame(OptionsRequest)), Read(InfraFrame(ActionPlanRequest)),
       Read(ResultsFrame(batch)), Read(FinishingFrame), Read(ResultsFrame(late))];
  }

  predicate ForwardsAllowed(env: Env, log: seq<Event>)
  {
    forall k :: 0 <= k < |log| && log[k].Forwarded? ==>
      log[k].name in env.methods && log[k].name !in env.forbidden
  }

  /** No run ever forwards an unknown or a forbidden call. */
  lemma {:induction false} ForwardLogAllowed(env: Env, input: seq<Incoming>)
    ensures ForwardsAllowed(env, ForwardLog(env, input))
    decreases |input|
  {
    if input != [] && StatusOf(input[0]) == Continue {
      ForwardLogAllowed(env, input[1..]);
    }
  }

  /** With tables built from the interface, the lifecycle callbacks startRun and endRun are
      never forwarded. */
  lemma LifecycleNeverForwarded(decls: seq<MethodDecl>, env: Env, input: seq<Incoming>, k: nat, j: nat)
    requires Enumerated(decls) == Some(Tables(env.methods, env.forbidden))
    requires j < |decls| && IsLifecycle(decls[j])
    requires k < |ForwardLog(env, input)| && ForwardLog(env, input)[k].Forwarded?
    ensures ForwardLog(env, input)[k].name != decls[j].name
  {
    EnumeratedTables(decls);
    ForwardLogAllowed(env, input);
  }

  // ---------------------------------------------------------------------------------------
  // The server, with its slots updated in place
  // ---------------------------------------------------------------------------------------

  /** The host's formatted-output sink. */
  class OutputSink {
    var events: seq<Event>

    constructor ()
      ensures events == []
    {
      events := [];
    }
  }

  /** A handler for one accepted connection. */
  class Handler {
    var open: bool
    var sent: seq<Reply>

    constructor ()
      ensures open && sent == []
    {
      open := true;
      sent := [];
    }
  }

  datatype AcceptOutcome = Registered | AlreadyRegistered | AcceptorClosed

  class LinkServer {
    const opts: Options
    const out: OutputSink
    const methods: map<string, MethodDecl>
    const forbidden: set<string>
    var acceptorOpen: bool
    var handler: Handler?
    var results: Results
    var exception: Option<BenchmarkException>
    var plan: Option<ActionPlan>

    function CurrentEnv(): Env
      reads this
    {
      Env(opts, methods, forbidden, plan)
    }

    ghost function View(h: Handler): LinkView
      reads this, out, h
    {
      LinkView(results, exception, out.events, h.sent)
    }

    constructor (opts: Options, out: OutputSink, tables: Tables)
      requires tables.forbidden <= tables.methods.Keys
      ensures this.opts == opts && this.out == out
      ensures methods == tables.methods && forbidden == tables.forbidden
      ensures acceptorOpen && handler == null && results == map[] && exception == None && plan == None
    {
      this.opts := opts;
      this.out := out;
      methods := tables.methods;
      forbidden := tables.forbidden;
      acceptorOpen := true;
      handler := null;
      results := map[];
      exception := None;
      plan := None;
    }

    /** Enumerates the interface's methods into the method and forbidden tables; on a repeated
        name it prints a warning naming both methods and fails. */
    static method EnumerateMethods(decls: seq<MethodDecl>, out: OutputSink) returns (r: Option<Tables>)
      modifies out
      ensures r == Enumerated(decls)
      ensures r.Some? ==> out.events == old(out.events)
      ensures r.None? ==> (exists k, i :: 0 <= i < k < |decls| &&
                             (forall k' :: 0 <= k' < k ==> !RepeatsEarlier(decls, k')) &&
                             decls[i].name == decls[k].name &&
                             out.events == old(out.events) + [DuplicateMethods(decls[k], decls[i])])
    {
      var methods: map<string, MethodDecl> := map[];
      var forbidden: set<string> := {};
      for k := 0 to |decls|
        invariant Enumerated(decls[..k]) == Some(Tables(methods, forbidden))
        invariant forall k' :: 0 <= k' < k ==> !RepeatsEarlier(decls, k')
        invariant out.events == old(out.events)
      {
        var m := decls[k];
        ghost var before := forbidden;
        EnumeratedSnoc(decls, k);
        EarlierNamesake(decls, k);
        if m.simpleName == "startRun" {
          forbidden := forbidden + {m.name};
        }
        if m.simpleName == "endRun" {
          forbidden := forbidden + {m.name};
        }
        if m.name in methods {
          var prev := methods[m.name];
          out.events := out.events + [DuplicateMethods(m, prev)];
          var i :| 0 <= i < k && decls[i].name == m.name && prev == decls[i];
          assert 0 <= i < k < |decls| &&
                 (forall k' :: 0 <= k' < k ==> !RepeatsEarlier(decls, k')) &&
                 decls[i].name == decls[k].name &&
                 out.events == old(out.events) + [DuplicateMethods(decls[k], decls[i])];
          FailurePersists(decls, k + 1);
          return None;
        }
        assert forbidden == before + (if IsLifecycle(m) then {m.name} else {});
        methods := methods[m.name := m];
      }
      assert decls[..|decls|] == decls;
      return Some(Tables(methods, forbidden));
    }

    /** Creates the server: the tables, then the slots (handler empty, no results, no
        exception, no plan); null when the tables cannot be built, after a warning naming the
        first repeated method and its earlier namesake. */
    static method Open(opts: Options, out: OutputSink, decls: seq<MethodDecl>) returns (server: LinkServer?)
      modifies out
      ensures server == null <==> Enumerated(decls).None?
      ensures server != null ==> out.events == old(out.events)
      ensures server == null ==> (exists k, i :: 0 <= i < k < |decls| &&
                                    (forall k' :: 0 <= k' < k ==> !RepeatsEarlier(decls, k')) &&
                                    decls[i].name == decls[k].name &&
                                    out.events == old(out.events) + [DuplicateMethods(decls[k], decls[i])])
      ensures server != null ==>
        && fresh(server) && server.out == out && server.opts == opts
        && server.forbidden <= server.methods.Keys
        && Some(Tables(server.methods, server.forbidden)) == Enumerated(decls)
        && server.acceptorOpen && server.handler == null
        && server.results == map[] && server.exception == None && server.plan == None
    {
      var tables := EnumerateMethods(decls, out);
      if tables.None? {
        return null;
      }
      EnumeratedTables(decls);
      server := new LinkServer(opts, out, tables.value);
    }

    /** One accepted connection: registered only into an empty handler slot; a second
        registration fails and the acceptor closes. */
    method Accept(h: Handler) returns (outcome: AcceptOutcome)
      modifies this
      ensures outcome == (if !old(acceptorOpen) then AcceptorClosed
                          else if old(handler) == null then Registered
                          else AlreadyRegistered)
      ensures handler == (if outcome == Registered then h else old(handler))
      ensures acceptorOpen == (outcome == Registered)
      ensures results == old(results) && exception == old(exception) && plan == old(plan)
    {
      if !acceptorOpen {
        return AcceptorClosed;
      }
      if handler == null {
        handler := h;
        return Registered;
      }
      acceptorOpen := false;
      return AlreadyRegistered;
    }

    /** Waits for the current handler and releases the slot. */
    method WaitFinish()
      modifies this
      ensures handler == null
      ensures acceptorOpen == old(acceptorOpen)
      ensures results == old(results) && exception == old(exception) && plan == old(plan)
    {
      handler := null;
    }

    /** Closes the acceptor and the current handler's connection, and releases the slot. */
    method Terminate()
      modifies this, handler
      ensures !acceptorOpen && handler == null
      ensures old(handler) != null ==> !old(handler).open && old(handler).sent == old(handler.sent)
      ensures results == old(results) && exception == old(exception) && plan == old(plan)
    {
      acceptorOpen := false;
      var h := handler;
      handler := null;
      if h != null {
        h.open := false;
      }
    }

    /** Takes the stored exception, leaving the slot empty. */
    method GetException() returns (e: Option<BenchmarkException>)
      modifies this
      ensures e == old(exception) && exception == None
      ensures handler == old(handler) && acceptorOpen == old(acceptorOpen)
      ensures results == old(results) && plan == old(plan)
    {
      e := exception;
      exception := None;
    }

    /** Takes the accumulated results, leaving a fresh empty collection. */
    method GetResults() returns (res: Results)
      modifies this
      ensures res == old(results) && results == map[]
      ensures handler == old(handler) && acceptorOpen == old(acceptorOpen)
      ensures exception == old(exception) && plan == old(plan)
    {
      res := results;
      results := map[];
    }

    method SetPlan(actionPlan: ActionPlan)
      modifies this
      ensures plan == Some(actionPlan)
      ensures handler == old(handler) && acceptorOpen == old(acceptorOpen)
      ensures results == old(results) && exception == old(exception)
    {
      plan := Some(actionPlan);
    }

    method HandleOutputFormat(call: string, args: seq<string>) returns (dropped: bool)
      modifies out
      ensures out.events == old(out.events) + ForwardEvents(CurrentEnv(), call, args)
      ensures dropped <==> !(call in methods && call !in forbidden)
    {
      if call !in methods {
        out.events := out.events + [UnknownMethod(call)];
        return true;
      }
      if call in forbidden {
        return true;
      }
      out.events := out.events + [Forwarded(call, args)];
      return false;
    }

    method HandleInfra(h: Handler, req: InfraRequest) returns (status: Status)
      modifies h
      ensures h.sent == Effect(CurrentEnv(), old(View(h)), Read(InfraFrame(req))).replies
      ensures status == StatusOf(Read(InfraFrame(req)))
      ensures h.open == old(h.open)
    {
      match req
      case OptionsRequest =>
        h.sent := h.sent + [OptionsReply(opts)];
        status := Continue;
      case ActionPlanRequest =>
        h.sent := h.sent + [ActionPlanReply(plan)];
        status := Continue;
      case UnknownRequest =>
        status := Failed(UnknownInfraRequest);
    }

    method HandleResults(res: Results)
      modifies this
      ensures results == MergeResults(old(results), res)
      ensures handler == old(handler) && acceptorOpen == old(acceptorOpen)
      ensures exception == old(exception) && plan == old(plan)
    {
      results := MergeResults(results, res);
    }

    method HandleException(e: BenchmarkException)
      modifies this
      ensures exception == Some(e)
      ensures handler == old(handler) && acceptorOpen == old(acceptorOpen)
      ensures results == old(results) && plan == old(plan)
    {
      exception := Some(e);
    }

    /** The handler's run: reads objects until a finishing frame or a null, reports a failure,
        and always closes the connection. */
    method Run(h: Handler, input: seq<Incoming>)
      requires h.open
      modifies this, out, h
      ensures View(h) == Served(old(CurrentEnv()), old(View(h)), input)
      ensures !h.open
      ensures handler == old(handler) && acceptorOpen == old(acceptorOpen) && plan == old(plan)
    {
      var i := 0;
      var status := Continue;
      while i < |input| && status == Continue
        decreases |input| - i
        invariant 0 <= i <= |input|
        invariant CurrentEnv() == old(CurrentEnv())
        invariant handler == old(handler) && acceptorOpen == old(acceptorOpen)
        invariant (View(h), status) == Steps(CurrentEnv(), old(View(h)), input[..i])
      {
        ghost var before := View(h);
        StepsAppend(CurrentEnv(), old(View(h)), input[..i], [input[i]]);
        assert input[..i] + [input[i]] == input[..i + 1];
        assert [input[i]][1..] == [];
        match input[i] {
          case ReadNull =>
            status := Finished;
          case ReadFailed =>
            status := Failed(CorruptStream);
          case Read(frame) =>
            match frame {
              case OutputFormatFrame(name, args) =>
                var dropped := HandleOutputFormat(name, args);
              case InfraFrame(req) =>
                status := HandleInfra(h, req);
              case ResultsFrame(res) =>
                HandleResults(res);
              case ExceptionFrame(e) =>
                HandleException(e);
              case OutputFrame(_, _) =>
                // the bytes go to the host's own standard output or error stream
              case FinishingFrame =>
                status := Finished;
              case OtherObject =>
            }
        }
        i := i + 1;
      }
      if status != Continue {
        StepsAppend(CurrentEnv(), old(View(h)), input[..i], input[i..]);
        assert input[..i] + input[i..] == input;
      } else {
        assert input[..i] == input;
        status := Failed(EndOfStream);
      }
      if status.Failed? {
        out.events := out.events + [LinkFailed];
        if PrintsDetail(opts) {
          out.events := out.events + [FailureDetail(status.error)];
        }
      }
      h.open := false;
    }
  }
}
