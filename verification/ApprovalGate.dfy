/** The approval gate and the request runner of the AI command line (`apiAnalysis/ai_cli/session.py` and
    `cli.py`). What the user types and what tools and provider answer is arbitrary. */
module ApprovalGate {
  import opened AccessPolicy
  import Order
  import opened Wrappers

  datatype Risk = Low | Medium | High | Critical

  datatype Tool = Tool(name: string, capability: string, risk: Risk, writes: bool, network: bool, shell: bool, mutation: bool)

  /** A call; `valid` tells whether its arguments fit the tool's schema, `works` whether the tool then
      returns without an exception. */
  datatype Request = Request(tool: string, valid: bool, works: bool)

  datatype Reason = PolicyDenied | YesFlag | AlwaysAllowedRule | SessionAllow | ApprovalNever | NotRisky | NonInteractive
                  | Once | ForSession | AlwaysRule | UserDenied

  datatype Decision = Approved(reason: Reason) | Refused(reason: Reason) | ApprovalRequired

  datatype Event = Prompted(tool: string) | Saved(tool: string) | Decided(tool: string, decision: Decision) | Ran(tool: string) | Asked

  datatype Config = Config(policy: Policy, yes: bool, interactive: bool, dryRun: bool, tools: map<string, Tool>) {
    ghost predicate WellFormed() { forall name | name in tools :: tools[name].name == name }
  }

  /** `answers` are the lines still to be typed, each as a number or as something that is not one; after
      them comes end of file. `trace` is what has happened. */
  datatype Session = Session(allow: set<string>, answers: seq<Option<int>>, trace: seq<Event>)

  const EXIT_OK := 0
  const EXIT_ERROR := 1
  const EXIT_APPROVAL := 10

  function Choice(s: Session): int {
    if s.answers == [] || s.answers[0].None? then 4 else s.answers[0].value
  }

  predicate NeedsPrompt(policy: Policy, tool: Tool) {
    if policy.approval == Always then tool.writes || tool.network || tool.shell || tool.mutation
    else tool.risk == High || tool.risk == Critical || tool.mutation || tool.shell
  }

  /** The decision that needs no prompt, if there is one. */
  function Unprompted(c: Config, tool: Tool, allow: set<string>): Option<Decision> {
    if StatusOf(c.policy, tool.capability) == Denied then Some(Refused(PolicyDenied))
    else if c.yes then Some(Approved(YesFlag))
    else if tool.name in c.policy.allowTools && c.policy.allowTools[tool.name] then Some(Approved(AlwaysAllowedRule))
    else if tool.name in allow then Some(Approved(SessionAllow))
    else if c.policy.approval == Never then Some(Approved(ApprovalNever))
    else if !NeedsPrompt(c.policy, tool) then Some(Approved(NotRisky))
    else if !c.interactive then Some(ApprovalRequired)
    else None
  }

  function DecisionFor(choice: int): Decision {
    if choice == 1 then Approved(Once) else if choice == 2 then Approved(ForSession) else if choice == 3 then Approved(AlwaysRule)
    else Refused(UserDenied)
  }

  /** `ApprovalGate.decide`. */
  function Decide(c: Config, tool: Tool, s: Session): (Decision, Session) {
    match Unprompted(c, tool, s.allow)
    case Some(d) => (d, s.(trace := s.trace + [Decided(tool.name, d)]))
    case None =>
      var choice := Choice(s);
      var d := DecisionFor(choice);
      (d, Session(if choice == 2 then s.allow + {tool.name} else s.allow,
                  if s.answers == [] then [] else s.answers[1..],
                  s.trace + [Prompted(tool.name)] + (if choice == 3 then [Saved(tool.name)] else []) + [Decided(tool.name, d)]))
  }

  /** `registry.invoke`: invalid arguments are reported without calling the tool. */
  function Invoke(request: Request, s: Session): (bool, Session) {
    if request.valid then (request.works, s.(trace := s.trace + [Ran(request.tool)])) else (false, s)
  }

  /** `_execute_one`. */
  function Execute(c: Config, request: Request, s: Session): (int, Session) {
    if request.tool !in c.tools then (EXIT_ERROR, s)
    else
      var (d, t) := Decide(c, c.tools[request.tool], s);
      if d.ApprovalRequired? then (EXIT_APPROVAL, t)
      else if d.Refused? then (EXIT_ERROR, t)
      else if c.dryRun then (EXIT_OK, t)
      else
        var (ok, u) := Invoke(request, t);
        (if ok then EXIT_OK else EXIT_ERROR, u)
  }

  /** The codes of the requests in turn, and the session after them. */
  function ExecuteAll(c: Config, requests: seq<Request>, s: Session): (seq<int>, Session) {
    if requests == [] then ([], s)
    else
      var (codes, t) := ExecuteAll(c, requests[..|requests| - 1], s);
      var (code, u) := Execute(c, requests[|requests| - 1], t);
      (codes + [code], u)
  }

  /** What the provider answers when asked: an error, tool calls, or its final text. */
  datatype Reply = ProviderError | Calls(calls: seq<Request>) | Finish

  /** The calls of one reply: the code if the loop ends here, the worst code so far and the session. */
  function CallAll(c: Config, calls: seq<Request>, worst: int, s: Session): (bool, int, Session) {
    if calls == [] then (false, worst, s)
    else
      var (code, t) := Execute(c, calls[0], s);
      if code == EXIT_APPROVAL then (true, EXIT_APPROVAL, t)
      else CallAll(c, calls[1..], if code == EXIT_ERROR then EXIT_ERROR else worst, t)
  }

  /** `_run_provider_loop` from step `step` of `last` on. */
  function ProviderRun(c: Config, replies: int -> Reply, step: int, last: int, worst: int, s: Session): (int, Session)
    decreases last - step + 1
  {
    if step > last then (worst, s)
    else
      var asked := s.(trace := s.trace + [Asked]);
      match replies(step)
      case ProviderError => (EXIT_ERROR, asked)
      case Finish => (worst, asked)
      case Calls(calls) =>
        if calls == [] then (worst, asked)
        else
          var (stop, w, t) := CallAll(c, calls, worst, asked);
          if stop then (EXIT_APPROVAL, t) else ProviderRun(c, replies, step + 1, last, w, t)
  }

  // ------------------------------------------------------------------ the program

  class Gate {
    const config: Config
    var sessionAllow: set<string>
    var answers: seq<Option<int>>
    var trace: seq<Event>

    ghost function State(): Session
      reads this
    {
      Session(sessionAllow, answers, trace)
    }

    constructor (config: Config, answers: seq<Option<int>>)
      ensures this.config == config && State() == Session({}, answers, [])
    {
      this.config, this.answers := config, answers;
      sessionAllow, trace := {}, [];
    }

    /** `_prompt`: one line is read; end of file and anything that is not a number count as a refusal. */
    method Prompt(tool: Tool) returns (choice: int)
      modifies this`answers, this`trace
      ensures choice == old(Choice(State())) && answers == if old(answers) == [] then [] else old(answers)[1..]
      ensures trace == old(trace) + [Prompted(tool.name)]
    {
      trace := trace + [Prompted(tool.name)];
      if answers == [] {
        return 4;
      }
      var raw := answers[0];
      answers := answers[1..];
      match raw
      case None => return 4;
      case Some(n) => return n;
    }

    method DecideOn(tool: Tool) returns (d: Decision)
      modifies this
      ensures (d, State()) == Decide(config, tool, old(State()))
    {
      if StatusOf(config.policy, tool.capability) == Denied {
        d := Refused(PolicyDenied);
      } else if config.yes {
        d := Approved(YesFlag);
      } else if tool.name in config.policy.allowTools && config.policy.allowTools[tool.name] {
        d := Approved(AlwaysAllowedRule);
      } else if tool.name in sessionAllow {
        d := Approved(SessionAllow);
      } else if config.policy.approval == Never {
        d := Approved(ApprovalNever);
      } else if !NeedsPrompt(config.policy, tool) {
        d := Approved(NotRisky);
      } else if !config.interactive {
        d := ApprovalRequired;
      } else {
        var choice := Prompt(tool);
        assert trace + [] == trace;
        if choice == 1 {
          d := Approved(Once);
        } else if choice == 2 {
          sessionAllow := sessionAllow + {tool.name};
          d := Approved(ForSession);
        } else if choice == 3 {
          trace := trace + [Saved(tool.name)];
          d := Approved(AlwaysRule);
        } else {
          d := Refused(UserDenied);
        }
      }
      trace := trace + [Decided(tool.name, d)];
    }

    method ExecuteOne(request: Request) returns (code: int)
      modifies this
      ensures (code, State()) == Execute(config, request, old(State()))
    {
      hide Decide;
      if request.tool !in config.tools {
        return EXIT_ERROR;
      }
      var d := DecideOn(config.tools[request.tool]);
      if d.ApprovalRequired? {
        return EXIT_APPROVAL;
      }
      if d.Refused? {
        return EXIT_ERROR;
      }
      if config.dryRun {
        return EXIT_OK;
      }
      if !request.valid {
        return EXIT_ERROR;
      }
      trace := trace + [Ran(request.tool)];
      return if request.works then EXIT_OK else EXIT_ERROR;
    }

    /** The request loop of `_cmd_run`. */
    method Run(requests: seq<Request>) returns (worst: int)
      modifies this
      ensures State() == ExecuteAll(config, requests, old(State())).1
      ensures IsWorst(worst, ExecuteAll(config, requests, old(State())).0)
    {
      hide Execute;
      worst := EXIT_OK;
      for i := 0 to |requests|
        invariant State() == ExecuteAll(config, requests[..i], old(State())).1
        invariant IsWorst(worst, ExecuteAll(config, requests[..i], old(State())).0)
      {
        assert requests[..i + 1][..i] == requests[..i];
        CodesOfExecute(config, requests[i], State());
        ghost var codes := ExecuteAll(config, requests[..i], old(State())).0;
        var code := ExecuteOne(requests[i]);
        WorstOfMore(worst, codes, code);
        if code == EXIT_APPROVAL {
          worst := EXIT_APPROVAL;
        } else if code != EXIT_OK && worst != EXIT_APPROVAL {
          worst := EXIT_ERROR;
        }
      }
      assert requests[..|requests|] == requests;
    }

    /** The inner loop over the calls of one reply. */
    method CallTools(calls: seq<Request>, before: int) returns (stop: bool, worst: int)
      modifies this
      ensures (stop, worst, State()) == CallAll(config, calls, before, old(State()))
    {
      hide Execute;
      worst := before;
      assert calls[0..] == calls;
      for i := 0 to |calls|
        invariant CallAll(config, calls, before, old(State())) == CallAll(config, calls[i..], worst, State())
      {
        assert calls[i..][1..] == calls[i + 1..];
        CodesOfExecute(config, calls[i], State());
        var code := ExecuteOne(calls[i]);
        if code == EXIT_APPROVAL {
          return true, EXIT_APPROVAL;
        }
        if code != EXIT_OK {
          worst := EXIT_ERROR;
        }
      }
      return false, worst;
    }

    method RunProvider(replies: int -> Reply, maxSteps: int) returns (code: int)
      modifies this
      ensures (code, State()) == ProviderRun(config, replies, 1, Order.Max(1, maxSteps), EXIT_OK, old(State()))
    {
      hide CallAll;
      var worst := EXIT_OK;
      for step := 1 to Order.Max(1, maxSteps) + 1
        invariant ProviderRun(config, replies, 1, Order.Max(1, maxSteps), EXIT_OK, old(State()))
                  == ProviderRun(config, replies, step, Order.Max(1, maxSteps), worst, State())
      {
        trace := trace + [Asked];
        var reply := replies(step);
        if reply.ProviderError? {
          return EXIT_ERROR;
        }
        if reply.Calls? && reply.calls != [] {
          var stop;
          stop, worst := CallTools(reply.calls, worst);
          if stop {
            return EXIT_APPROVAL;
          }
        } else {
          return worst;
        }
      }
      return worst;
    }
  }

  // ------------------------------------------------------------------ exit codes

  /** The maximum of the codes, where no request counts as success. */
  ghost predicate IsWorst(worst: int, codes: seq<int>) {
    (forall code | code in codes :: code in {EXIT_OK, EXIT_ERROR, EXIT_APPROVAL} && code <= worst)
    && (worst in codes || (worst == EXIT_OK && codes == []))
  }

  lemma CodesOfExecute(c: Config, request: Request, s: Session)
    ensures Execute(c, request, s).0 in {EXIT_OK, EXIT_ERROR, EXIT_APPROVAL}
  {
    hide Decide;
  }

  lemma WorstOfMore(worst: int, codes: seq<int>, code: int)
    requires IsWorst(worst, codes) && code in {EXIT_OK, EXIT_ERROR, EXIT_APPROVAL}
    ensures IsWorst(if code == EXIT_APPROVAL then EXIT_APPROVAL else if code != EXIT_OK && worst != EXIT_APPROVAL then EXIT_ERROR else worst,
                    codes + [code])
  {
    var w := if code == EXIT_APPROVAL then EXIT_APPROVAL else if code != EXIT_OK && worst != EXIT_APPROVAL then EXIT_ERROR else worst;
    assert forall x :: x in codes + [code] <==> x in codes || x == code;
    assert worst in {EXIT_OK, EXIT_ERROR, EXIT_APPROVAL};
  }
}
