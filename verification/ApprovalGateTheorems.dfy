/** Safety of the approval gate over whole sessions. */
module ApprovalGateTheorems {
  import opened AccessPolicy
  import opened ApprovalGate
  import Order
  import opened Wrappers

  // ------------------------------------------------------------------ one decision

  /** A call is approved exactly when its capability is not denied and the flag, a rule, the session, the
      preference, the harmlessness of the tool or the user says so. */
  lemma ApprovedIff(c: Config, tool: Tool, s: Session)
    ensures Decide(c, tool, s).0.Approved?
            <==> StatusOf(c.policy, tool.capability) != Denied
                 && (c.yes || (tool.name in c.policy.allowTools && c.policy.allowTools[tool.name]) || tool.name in s.allow
                     || c.policy.approval == Never || !NeedsPrompt(c.policy, tool)
                     || (c.interactive && 1 <= Choice(s) <= 3))
  {
  }

  /** A fragment that says no changes no decision: it is not a veto. */
  lemma RefusingFragmentIsNoVeto(c: Config, tool: Tool, s: Session, name: string)
    requires StatusIn(c.policy.allowTools, name) != Allowed
    ensures var refusing := c.(policy := c.policy.(allowTools := c.policy.allowTools[name := false]));
            Decide(refusing, tool, s) == Decide(c, tool, s)
  {
    hide Choice, DecisionFor;
  }

  /** A capability nothing is known about is treated like an allowed one: it alone causes no prompt. */
  lemma UnknownIsLikeAllowed(c: Config, tool: Tool, s: Session)
    requires StatusOf(c.policy, tool.capability) == Unknown
    ensures var allowing := c.(policy := c.policy.(capabilities := c.policy.capabilities[tool.capability := true]));
            Decide(allowing, tool, s) == Decide(c, tool, s)
  {
    hide Choice, DecisionFor, Preset;
    var allowing := c.(policy := c.policy.(capabilities := c.policy.capabilities[tool.capability := true]));
    assert StatusOf(allowing.policy, tool.capability) == Allowed;
    assert Unprompted(allowing, tool, s.allow) == Unprompted(c, tool, s.allow);
  }

  /** "Always allow this rule" takes effect in later sessions, which read the saved fragment; the session
      that saved it prompts again. */
  lemma AlwaysRuleIsForLaterSessions(c: Config, tool: Tool, s: Session)
    requires Unprompted(c, tool, s.allow).None? && Choice(s) == 3
    ensures var (d, t) := Decide(c, tool, s);
            d == Approved(AlwaysRule) && Saved(tool.name) in t.trace && Unprompted(c, tool, t.allow).None?
    ensures var later := c.policy.(allowTools := Merged(c.policy.allowTools, [Fragment(tool.name, true)]));
            tool.name != "" ==> forall allow :: Unprompted(c.(policy := later), tool, allow) == Some(Approved(AlwaysAllowedRule))
  {
    var t := Decide(c, tool, s).1;
    assert t.trace[|s.trace| + 1] == Saved(tool.name);
    var later := c.policy.(allowTools := Merged(c.policy.allowTools, [Fragment(tool.name, true)]));
    LastFragmentWins(c.policy.allowTools, [Fragment(tool.name, true)], tool.name);
    assert [Fragment(tool.name, true)][0].tool == tool.name;
    hide Preset;
    assert StatusOf(later, tool.capability) == StatusOf(c.policy, tool.capability);
  }

  /** A call that is approved does run, unless it is a dry run or its arguments are invalid, and it
      succeeds exactly when it is approved and is a dry run or the tool works. */
  lemma ExecuteMeaning(c: Config, request: Request, s: Session)
    requires c.WellFormed()
    ensures var (code, t) := Execute(c, request, s);
            var approved := request.tool in c.tools && Decide(c, c.tools[request.tool], s).0.Approved?;
            (Ran(request.tool) in t.trace[|s.trace|..] <==> approved && !c.dryRun && request.valid)
            && (code == EXIT_OK <==> approved && (c.dryRun || (request.valid && request.works)))
            && (code == EXIT_APPROVAL <==> request.tool in c.tools && Decide(c, c.tools[request.tool], s).0 == ApprovalRequired)
  {
    hide Unprompted, Choice;
    if request.tool in c.tools {
      var t := Decide(c, c.tools[request.tool], s).1;
      var u := Execute(c, request, s).1;
      assert forall e | e in t.trace[|s.trace|..] :: !e.Ran?;
      if |u.trace| > |t.trace| {
        assert u.trace == t.trace + [Ran(request.tool)];
        assert u.trace[|s.trace|..][|t.trace| - |s.trace|] == Ran(request.tool);
      }
    }
  }

  // ------------------------------------------------------------------ whole sessions

  /** A prompt was due. */
  ghost predicate PromptDue(c: Config, name: string) {
    name in c.tools && c.interactive && !c.yes && c.policy.approval != Never && NeedsPrompt(c.policy, c.tools[name])
    && StatusOf(c.policy, c.tools[name].capability) != Denied && StatusIn(c.policy.allowTools, name) != Allowed
  }

  ghost predicate MayRun(c: Config, name: string) {
    name in c.tools && StatusOf(c.policy, c.tools[name].capability) != Denied
  }

  /** What each kind of event requires of what came before. */
  ghost predicate EventOk(c: Config, trace: seq<Event>, i: nat)
    requires i < |trace|
  {
    match trace[i]
    case Ran(name) =>
      !c.dryRun && MayRun(c, name) && i > 0 && trace[i - 1].Decided? && trace[i - 1].tool == name && trace[i - 1].decision.Approved?
    case Prompted(name) => PromptDue(c, name) && forall k | 0 <= k < i :: trace[k] != Decided(name, Approved(ForSession))
    case Decided(name, d) => d.Approved? ==> MayRun(c, name)
    case _ => true
  }

  ghost predicate Safe(c: Config, s: Session) {
    (forall i | 0 <= i < |s.trace| :: EventOk(c, s.trace, i))
    && forall i, name | 0 <= i < |s.trace| && s.trace[i] == Decided(name, Approved(ForSession)) :: name in s.allow
  }

  lemma SafeSnoc(c: Config, s: Session, allow: set<string>, answers: seq<Option<int>>, e: Event)
    requires Safe(c, s) && s.allow <= allow
    requires EventOk(c, s.trace + [e], |s.trace|)
    requires forall name | e == Decided(name, Approved(ForSession)) :: name in allow
    ensures Safe(c, Session(allow, answers, s.trace + [e]))
  {
    hide PromptDue, MayRun;
    var t := s.trace + [e];
    forall i | 0 <= i < |t| ensures EventOk(c, t, i) {
      if i < |s.trace| {
        assert EventOk(c, s.trace, i);
        assert t[i] == s.trace[i];
        assert i > 0 ==> t[i - 1] == s.trace[i - 1];
        assert forall k | 0 <= k < i :: t[k] == s.trace[k];
      }
    }
  }

  lemma DecideIsSafe(c: Config, tool: Tool, s: Session)
    requires c.WellFormed() && Safe(c, s) && tool.name in c.tools && c.tools[tool.name] == tool
    ensures var (d, t) := Decide(c, tool, s);
            Safe(c, t) && t.trace != [] && t.trace[|t.trace| - 1] == Decided(tool.name, d)
            && (d.Approved? ==> MayRun(c, tool.name))
  {
    hide Choice, NeedsPrompt, StatusOf;
    var (d, t) := Decide(c, tool, s);
    ApprovedIff(c, tool, s);
    var due := Unprompted(c, tool, s.allow);
    if due.Some? {
      SafeSnoc(c, s, s.allow, s.answers, Decided(tool.name, d));
    } else {
      var answers := t.answers;
      SafeSnoc(c, s, s.allow, answers, Prompted(tool.name));
      var s1 := Session(s.allow, answers, s.trace + [Prompted(tool.name)]);
      if Choice(s) == 3 {
        SafeSnoc(c, s1, s.allow, answers, Saved(tool.name));
        var s2 := Session(s.allow, answers, s1.trace + [Saved(tool.name)]);
        SafeSnoc(c, s2, t.allow, answers, Decided(tool.name, d));
      } else {
        assert s1.trace + [] == s1.trace;
        SafeSnoc(c, s1, t.allow, answers, Decided(tool.name, d));
      }
    }
  }

  lemma ExecuteIsSafe(c: Config, request: Request, s: Session)
    requires c.WellFormed() && Safe(c, s)
    ensures Safe(c, Execute(c, request, s).1)
  {
    hide Decide, Safe, MayRun;
    if request.tool in c.tools {
      DecideIsSafe(c, c.tools[request.tool], s);
      var (d, t) := Decide(c, c.tools[request.tool], s);
      if d.Approved? && !c.dryRun && request.valid {
        SafeSnoc(c, t, t.allow, t.answers, Ran(request.tool));
      }
    }
  }

  lemma {:induction false} CallsAreSafe(c: Config, calls: seq<Request>, worst: int, s: Session)
    requires c.WellFormed() && Safe(c, s)
    ensures Safe(c, CallAll(c, calls, worst, s).2)
    decreases |calls|
  {
    hide Execute, Safe;
    if calls != [] {
      ExecuteIsSafe(c, calls[0], s);
      var (code, t) := Execute(c, calls[0], s);
      if code != EXIT_APPROVAL {
        CallsAreSafe(c, calls[1..], if code == EXIT_ERROR then EXIT_ERROR else worst, t);
      }
    }
  }

  lemma {:induction false} RequestsAreSafe(c: Config, requests: seq<Request>, s: Session)
    requires c.WellFormed() && Safe(c, s)
    ensures Safe(c, ExecuteAll(c, requests, s).1)
    decreases |requests|
  {
    hide Execute, Safe;
    if requests != [] {
      RequestsAreSafe(c, requests[..|requests| - 1], s);
      ExecuteIsSafe(c, requests[|requests| - 1], ExecuteAll(c, requests[..|requests| - 1], s).1);
    }
  }

  lemma {:induction false} ProviderIsSafe(c: Config, replies: int -> Reply, step: int, last: int, worst: int, s: Session)
    requires c.WellFormed() && Safe(c, s)
    ensures Safe(c, ProviderRun(c, replies, step, last, worst, s).1)
    decreases last - step + 1
  {
    if step <= last {
      SafeSnoc(c, s, s.allow, s.answers, Asked);
      hide CallAll, Safe;
      var asked := s.(trace := s.trace + [Asked]);
      var reply := replies(step);
      if reply.Calls? && reply.calls != [] {
        CallsAreSafe(c, reply.calls, worst, asked);
        var (stop, w, t) := CallAll(c, reply.calls, worst, asked);
        if !stop {
          ProviderIsSafe(c, replies, step + 1, last, w, t);
        }
      }
    }
  }

  /** In every session, over any requests or provider replies and any typed answers: a tool runs only right
      after its call was approved, never in a dry run and never with a denied capability, not even with
      `--yes`; a prompt comes only when it is due, and never again for a tool allowed for the session. */
  lemma SessionSafety(c: Config, requests: seq<Request>, replies: int -> Reply, maxSteps: int, answers: seq<Option<int>>, i: nat)
    requires c.WellFormed()
    ensures var trace := ExecuteAll(c, requests, Session({}, answers, [])).1.trace; i < |trace| ==> EventOk(c, trace, i)
    ensures var trace := ProviderRun(c, replies, 1, Order.Max(1, maxSteps), EXIT_OK, Session({}, answers, [])).1.trace;
            i < |trace| ==> EventOk(c, trace, i)
  {
    hide ExecuteAll, ProviderRun, EventOk;
    RequestsAreSafe(c, requests, Session({}, answers, []));
    ProviderIsSafe(c, replies, 1, Order.Max(1, maxSteps), EXIT_OK, Session({}, answers, []));
  }

  // ------------------------------------------------------------------ exit codes

  ghost predicate Waits(e: Event) {
    e.Decided? && e.decision == ApprovalRequired
  }

  ghost predicate NoneWaits(trace: seq<Event>) {
    forall i | 0 <= i < |trace| :: !Waits(trace[i])
  }

  /** The code of one call is the approval code exactly when its decision is left open, and that decision
      is then the last event. */
  lemma CodeMeaning(c: Config, request: Request, s: Session)
    ensures var (code, t) := Execute(c, request, s);
            |t.trace| >= |s.trace| && t.trace[..|s.trace|] == s.trace
            && (code != EXIT_APPROVAL ==> NoneWaits(t.trace[|s.trace|..]))
            && (code == EXIT_APPROVAL ==> |t.trace| > |s.trace| && Waits(t.trace[|t.trace| - 1]) && NoneWaits(t.trace[|s.trace|..|t.trace| - 1]))
            && (code == EXIT_OK || code == EXIT_ERROR || code == EXIT_APPROVAL)
  {
    hide Choice, Unprompted;
  }

  /** `run` exits with the approval code exactly when some decision was left open. */
  lemma {:induction false} RunWaitsIff(c: Config, requests: seq<Request>, s: Session)
    requires NoneWaits(s.trace)
    ensures var (codes, t) := ExecuteAll(c, requests, s);
            |codes| == |requests| && (EXIT_APPROVAL in codes <==> !NoneWaits(t.trace))
    decreases |requests|
  {
    hide Execute, Waits;
    if requests != [] {
      var front, last := requests[..|requests| - 1], requests[|requests| - 1];
      RunWaitsIff(c, front, s);
      var (codes, t) := ExecuteAll(c, front, s);
      CodeMeaning(c, last, t);
      var (code, u) := Execute(c, last, t);
      assert forall x :: x in codes + [code] <==> x in codes || x == code;
      assert forall i | 0 <= i < |t.trace| :: u.trace[i] == t.trace[..|t.trace|][i];
      if !NoneWaits(t.trace) {
        var i :| 0 <= i < |t.trace| && Waits(t.trace[i]);
        assert Waits(u.trace[i]);
      } else if code == EXIT_APPROVAL {
        assert Waits(u.trace[|u.trace| - 1]);
      } else {
        forall i | 0 <= i < |u.trace| ensures !Waits(u.trace[i]) {
          if i >= |t.trace| {
            assert u.trace[i] == u.trace[|t.trace|..][i - |t.trace|];
          }
        }
      }
    }
  }

  function CountAsked(trace: seq<Event>): nat {
    if trace == [] then 0 else CountAsked(trace[..|trace| - 1]) + if trace[|trace| - 1].Asked? then 1 else 0
  }

  /** Nothing waits, or only the last event does. */
  ghost predicate OnlyLastWaits(trace: seq<Event>) {
    trace != [] && Waits(trace[|trace| - 1]) && NoneWaits(trace[..|trace| - 1])
  }

  lemma {:induction false} CountSnoc(trace: seq<Event>, e: Event)
    ensures CountAsked(trace + [e]) == CountAsked(trace) + if e.Asked? then 1 else 0
  {
    assert (trace + [e])[..|trace|] == trace;
  }

  lemma ExecuteAsksNothing(c: Config, request: Request, s: Session)
    ensures CountAsked(Execute(c, request, s).1.trace) == CountAsked(s.trace)
  {
    if request.tool in c.tools {
      var tool := c.tools[request.tool];
      DecideAsksNothing(c, tool, s);
      hide Decide, CountAsked;
      var (d, t) := Decide(c, tool, s);
      CountSnoc(t.trace, Ran(request.tool));
    }
  }

  lemma DecideAsksNothing(c: Config, tool: Tool, s: Session)
    ensures CountAsked(Decide(c, tool, s).1.trace) == CountAsked(s.trace)
  {
    hide CountAsked, Unprompted, Choice;
    var d := Decide(c, tool, s).0;
    CountSnoc(s.trace, Decided(tool.name, d));
    CountSnoc(s.trace, Prompted(tool.name));
    var prompted := s.trace + [Prompted(tool.name)];
    assert prompted + [] == prompted;
    CountSnoc(prompted, Decided(tool.name, d));
    CountSnoc(prompted, Saved(tool.name));
    CountSnoc(prompted + [Saved(tool.name)], Decided(tool.name, d));
  }

  lemma {:induction false} CallsMeaning(c: Config, calls: seq<Request>, worst: int, s: Session)
    requires NoneWaits(s.trace) && worst != EXIT_APPROVAL
    ensures var (stop, w, t) := CallAll(c, calls, worst, s);
            CountAsked(t.trace) == CountAsked(s.trace)
            && (if stop then OnlyLastWaits(t.trace) else NoneWaits(t.trace) && w != EXIT_APPROVAL)
    decreases |calls|
  {
    hide Execute, Waits, CountAsked;
    if calls != [] {
      ExecuteAsksNothing(c, calls[0], s);
      CodeMeaning(c, calls[0], s);
      var (code, t) := Execute(c, calls[0], s);
      Extended(s.trace, t.trace);
      if code != EXIT_APPROVAL {
        CallsMeaning(c, calls[1..], if code == EXIT_ERROR then EXIT_ERROR else worst, t);
      }
    }
  }

  lemma Extended(s: seq<Event>, t: seq<Event>)
    requires |t| >= |s| && t[..|s|] == s && NoneWaits(s)
    ensures NoneWaits(t[|s|..]) ==> NoneWaits(t)
    ensures |t| > |s| && NoneWaits(t[|s|..|t| - 1]) ==> NoneWaits(t[..|t| - 1])
  {
    hide Waits;
    assert forall i | 0 <= i < |s| :: t[i] == t[..|s|][i];
    assert forall i | |s| <= i < |t| :: t[i] == t[|s|..][i - |s|];
    if |t| > |s| {
      assert forall i | |s| <= i < |t| - 1 :: t[i] == t[|s|..|t| - 1][i - |s|];
    }
  }

  lemma {:induction false} ProviderSteps(c: Config, replies: int -> Reply, step: int, last: int, worst: int, s: Session)
    requires NoneWaits(s.trace) && worst != EXIT_APPROVAL
    ensures var (code, t) := ProviderRun(c, replies, step, last, worst, s);
            CountAsked(s.trace) <= CountAsked(t.trace) <= CountAsked(s.trace) + (if step <= last then last - step + 1 else 0)
            && (if code == EXIT_APPROVAL then OnlyLastWaits(t.trace) else NoneWaits(t.trace))
    decreases last - step + 1
  {
    if step <= last {
      CountSnoc(s.trace, Asked);
      hide CallAll, CountAsked;
      var asked := s.(trace := s.trace + [Asked]);
      assert NoneWaits(asked.trace);
      var reply := replies(step);
      if reply.Calls? && reply.calls != [] {
        CallsMeaning(c, reply.calls, worst, asked);
        var (stop, w, t) := CallAll(c, reply.calls, worst, asked);
        if !stop {
          ProviderSteps(c, replies, step + 1, last, w, t);
        }
      }
    }
  }

  /** The provider is asked at most `max(1, max_steps)` times, whatever it answers. The loop exits with the
      approval code exactly when a decision was left open, and nothing happens after that decision. */
  lemma ProviderLoopBound(c: Config, replies: int -> Reply, maxSteps: int, answers: seq<Option<int>>)
    ensures var (code, t) := ProviderRun(c, replies, 1, Order.Max(1, maxSteps), EXIT_OK, Session({}, answers, []));
            CountAsked(t.trace) <= Order.Max(1, maxSteps)
            && (if code == EXIT_APPROVAL then OnlyLastWaits(t.trace) else NoneWaits(t.trace))
  {
    ProviderSteps(c, replies, 1, Order.Max(1, maxSteps), EXIT_OK, Session({}, answers, []));
  }
}
