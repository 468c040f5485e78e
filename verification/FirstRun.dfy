/** First-run bootstrap of the local administrator credentials (`local_web_credentials.py`), by any number
    of processes that share one credentials file. */
module FirstRun {
  import opened EnvFile
  import opened Wrappers

  const INSECURE_USERS := "API_MANAGER_ALLOW_INSECURE_DEFAULT_USERS"

  type Env = map<string, string>

  datatype File = Absent | Present(text: string)

  datatype Source = FromEnvironment | InsecureUsers | FromFile | Generated

  datatype Outcome = Outcome(source: Source, username: string, shown: Option<string>)

  datatype Phase = Start | Creating | Writing | Loading | Returned(outcome: Outcome) | Failed

  /** `initial` is the environment at the start; `password` and `key` are the tokens the process would
      generate. */
  datatype Process = Process(initial: Env, env: Env, password: string, key: string, phase: Phase)

  datatype State = State(file: File, procs: seq<Process>)

  function GetOr(env: Env, name: string, default: string): string {
    if name in env then env[name] else default
  }

  function SetDefault(env: Env, name: string, value: string): Env {
    if name in env then env else env[name := value]
  }

  function SetDefaults(env: Env, username: string, password: string, key: string): Env {
    SetDefault(SetDefault(SetDefault(env, USERNAME, username), PASSWORD, password), SECRET_KEY, key)
  }

  predicate Complete(values: Env) {
    GetOr(values, PASSWORD, "") != "" && GetOr(values, SECRET_KEY, "") != ""
  }

  function UsernameIn(values: Env): string {
    if GetOr(values, USERNAME, "") == "" then "admin" else values[USERNAME]
  }

  // ------------------------------------------------------------------ atomic steps

  /** `_load_credentials_file`: reading the file is one step. */
  function Load(file: File, p: Process): Process {
    if file.Absent? then p.(phase := Failed)
    else
      var values := Parse(file.text);
      if !Complete(values) then p.(phase := Failed)
      else
        p.(env := SetDefaults(p.env, UsernameIn(values), values[PASSWORD], values[SECRET_KEY]),
           phase := Returned(Outcome(FromFile, UsernameIn(values), None)))
  }

  /** One step of a process: the existence test, the exclusive creation, the write and the read are
      separate steps, and other processes may act between them. */
  function Act(file: File, p: Process): (File, Process) {
    match p.phase
    case Start =>
      if GetOr(p.env, PASSWORD, "") != "" then
        (file, p.(phase := Returned(Outcome(FromEnvironment, GetOr(p.env, USERNAME, "admin"), None))))
      else if GetOr(p.env, INSECURE_USERS, "0") == "1" then
        (file, p.(phase := Returned(Outcome(InsecureUsers, "admin", None))))
      else (file, p.(phase := if file.Present? then Loading else Creating))
    case Creating =>
      if file.Absent? then (Present(""), p.(phase := Writing)) else (file, p.(phase := Loading))
    case Writing =>
      var username := GetOr(p.env, USERNAME, "admin");
      (Present(Content(username, p.password, p.key)),
       p.(env := SetDefaults(p.env, username, p.password, p.key),
          phase := Returned(Outcome(Generated, username, Some(p.password)))))
    case Loading => (file, Load(file, p))
    case _ => (file, p)
  }

  function Step(s: State, i: nat): State {
    if i >= |s.procs| then s
    else
      var (file, p) := Act(s.file, s.procs[i]);
      State(file, s.procs[i := p])
  }

  /** An interleaving is the list of processes in the order they act; a process that has crashed is no
      longer listed. */
  function Exec(s: State, schedule: seq<nat>): (t: State)
    ensures |t.procs| == |s.procs|
  {
    if schedule == [] then s else Step(Exec(s, schedule[..|schedule| - 1]), schedule[|schedule| - 1])
  }

  /** Any environments; the tokens are those of `secrets.token_urlsafe`. */
  ghost predicate Starting(s: State) {
    forall i | 0 <= i < |s.procs| ::
      var p := s.procs[i];
      p.phase == Start && p.env == p.initial && Clean(p.password) && p.password != "" && Clean(p.key) && p.key != ""
  }

  // ------------------------------------------------------------------ the program

  /** The runtime error on a file without a password or a key. */
  datatype Failure = Incomplete

  /** A process with its environment, next to the credentials file. */
  class Host {
    var file: File
    var env: Env

    /** `_load_credentials_file`. */
    method LoadFile() returns (r: Result<Outcome, Failure>)
      requires file.Present?
      modifies this`env
      ensures forall p: Process | p.env == old(env) ::
                var q := Load(file, p);
                env == q.env && q.phase == match r case Ok(outcome) => Returned(outcome) case Err(_) => Failed
    {
      var values := ParseEnvFile(file.text);
      var password, key := GetOr(values, PASSWORD, ""), GetOr(values, SECRET_KEY, "");
      if password == "" || key == "" {
        return Err(Incomplete);
      }
      var username := GetOr(values, USERNAME, "");
      if username == "" {
        username := "admin";
      }
      env := SetDefault(env, USERNAME, username);
      env := SetDefault(env, PASSWORD, password);
      env := SetDefault(env, SECRET_KEY, key);
      return Ok(Outcome(FromFile, username, None));
    }

    /** `bootstrap_local_web_credentials` without interference, which is the run of one process alone. */
    method Bootstrap(password: string, key: string) returns (r: Result<Outcome, Failure>)
      modifies this
      ensures var alone := Exec(State(old(file), [Process(old(env), old(env), password, key, Start)]), [0, 0, 0]);
              file == alone.file && env == alone.procs[0].env
              && alone.procs[0].phase == match r case Ok(outcome) => Returned(outcome) case Err(_) => Failed
    {
      hide Parse, Content, SetDefaults, Clean;
      ghost var start := Process(env, env, password, key, Start);
      AloneByThree(file, start);
      if GetOr(env, PASSWORD, "") != "" {
        return Ok(Outcome(FromEnvironment, GetOr(env, USERNAME, "admin"), None));
      }
      if GetOr(env, INSECURE_USERS, "0") == "1" {
        return Ok(Outcome(InsecureUsers, "admin", None));
      }
      if file.Present? {
        r := LoadFile();
        return;
      }
      var username := GetOr(env, USERNAME, "admin");
      file := Present("");
      file := Present(Content(username, password, key));
      env := SetDefaults(env, username, password, key);
      return Ok(Outcome(Generated, username, Some(password)));
    }
  }

  lemma AloneByThree(file: File, p: Process)
    ensures var (f1, p1) := Act(file, p);
            var (f2, p2) := Act(f1, p1);
            var (f3, p3) := Act(f2, p2);
            Exec(State(file, [p]), [0, 0, 0]) == State(f3, [p3])
  {
    hide Act;
    var s := State(file, [p]);
    assert Exec(s, []) == s;
    assert [0][..0] == [] && [0, 0][..1] == [0] && [0, 0, 0][..2] == [0, 0];
    assert Exec(s, [0]) == Step(s, 0);
    assert Exec(s, [0, 0]) == Step(Step(s, 0), 0);
  }

  // ------------------------------------------------------------------ the invariant

  ghost predicate HasGenerated(p: Process) {
    p.phase.Returned? && p.phase.outcome.source == Generated
  }

  /** The process is the one that created the file. */
  ghost predicate Creator(p: Process) {
    p.phase == Writing || HasGenerated(p)
  }

  function Contents(p: Process): string {
    Content(GetOr(p.initial, USERNAME, "admin"), p.password, p.key)
  }

  /** What a process has, given the file as it is now. */
  ghost predicate Consistent(file: File, p: Process) {
    match p.phase
    case Returned(outcome) =>
      (match outcome.source
       case FromFile =>
         GetOr(p.initial, PASSWORD, "") == "" && file.Present? && Complete(Parse(file.text))
         && p.env == SetDefaults(p.initial, UsernameIn(Parse(file.text)), Parse(file.text)[PASSWORD], Parse(file.text)[SECRET_KEY])
       case Generated =>
         GetOr(p.initial, PASSWORD, "") == "" && file == Present(Contents(p))
         && p.env == SetDefaults(p.initial, GetOr(p.initial, USERNAME, "admin"), p.password, p.key)
       case _ => p.env == p.initial)
    case Start => p.env == p.initial
    case Writing => p.env == p.initial && GetOr(p.initial, PASSWORD, "") == "" && file == Present("")
    case Loading => p.env == p.initial && GetOr(p.initial, PASSWORD, "") == "" && file.Present?
    case Creating => p.env == p.initial && GetOr(p.initial, PASSWORD, "") == ""
    case Failed => p.env == p.initial && file.Present?
  }

  ghost predicate SameProcess(p: Process, q: Process) {
    p.initial == q.initial && p.password == q.password && p.key == q.key
  }

  /** No two processes have created the file, and if the file was not there at first, one has. */
  ghost predicate Owned(before: State, s: State) {
    (forall i, j | 0 <= i < j < |s.procs| :: !(Creator(s.procs[i]) && Creator(s.procs[j])))
    && (before.file.Present? ==> s.file == before.file && forall i | 0 <= i < |s.procs| :: !Creator(s.procs[i]))
    && (before.file.Absent? && s.file.Present? ==> exists o | 0 <= o < |s.procs| :: Creator(s.procs[o]))
    && (s.file.Absent? ==> forall i | 0 <= i < |s.procs| :: !Creator(s.procs[i]))
  }

  ghost predicate Inv(before: State, s: State) {
    |s.procs| == |before.procs|
    && (forall i | 0 <= i < |s.procs| :: SameProcess(before.procs[i], s.procs[i]) && Consistent(s.file, s.procs[i]))
    && Owned(before, s)
  }

  lemma EmptyIsIncomplete()
    ensures !Complete(Parse(""))
  {
    SplitNothing();
    assert Parse("") == map[];
  }

  /** One step of one process keeps what every process has: the file only changes from absent to empty and
      from empty to written. */
  lemma StepKeepsConsistent(before: State, s: State, i: nat, j: nat)
    requires Inv(before, s) && i < |s.procs| && j < |s.procs|
    ensures Consistent(Step(s, i).file, Step(s, i).procs[j])
    ensures SameProcess(before.procs[j], Step(s, i).procs[j])
  {
    hide Parse, Content, SetDefaults, UsernameIn, Complete;
    EmptyIsIncomplete();
    var p := s.procs[i];
    assert Consistent(s.file, p) && Consistent(s.file, s.procs[j]);
    if i != j && p.phase == Writing {
      assert Creator(p) && !Creator(s.procs[j]);
    }
  }

  lemma StepKeepsOwned(before: State, s: State, i: nat)
    requires Inv(before, s) && i < |s.procs|
    ensures Owned(before, Step(s, i))
  {
    hide Parse, Content, SetDefaults, UsernameIn, Complete;
    var t := Step(s, i);
    var p := s.procs[i];
    assert Consistent(s.file, p);
    assert forall k | 0 <= k < |s.procs| && k != i :: t.procs[k] == s.procs[k];
    if p.phase == Creating && s.file.Absent? {
      assert Creator(t.procs[i]);
    } else if p.phase == Writing {
      assert Creator(p) && Creator(t.procs[i]);
    } else {
      assert t.file == s.file;
      assert Creator(t.procs[i]) <==> Creator(p);
      if before.file.Absent? && s.file.Present? {
        var o :| 0 <= o < |s.procs| && Creator(s.procs[o]);
        assert Creator(t.procs[o]);
      }
    }
  }

  lemma {:induction false} Reachable(before: State, schedule: seq<nat>)
    requires Starting(before)
    ensures Inv(before, Exec(before, schedule))
    decreases |schedule|
  {
    hide Act, Consistent, Owned;
    if schedule == [] {
      StartIsFine(before);
    } else {
      var s, i := Exec(before, schedule[..|schedule| - 1]), schedule[|schedule| - 1];
      Reachable(before, schedule[..|schedule| - 1]);
      if i < |s.procs| {
        forall j | 0 <= j < |s.procs| ensures Consistent(Step(s, i).file, Step(s, i).procs[j]) && SameProcess(before.procs[j], Step(s, i).procs[j]) {
          StepKeepsConsistent(before, s, i, j);
        }
        StepKeepsOwned(before, s, i);
      }
    }
  }

  lemma StartIsFine(before: State)
    requires Starting(before)
    ensures Inv(before, before)
  {
    hide Clean;
  }

  // ------------------------------------------------------------------ main results

  /** In no interleaving do two processes report that they generated the credentials, and none does when
      the file is already there. */
  lemma AtMostOneGenerates(before: State, schedule: seq<nat>, i: nat, j: nat)
    requires Starting(before) && i < |before.procs| && j < |before.procs|
    requires HasGenerated(Exec(before, schedule).procs[i])
    ensures HasGenerated(Exec(before, schedule).procs[j]) ==> i == j
    ensures before.file.Absent?
  {
    hide Consistent;
    Reachable(before, schedule);
  }

  ghost predicate UsesFile(p: Process) {
    p.phase.Returned? && (p.phase.outcome.source == FromFile || p.phase.outcome.source == Generated)
  }

  lemma Held(initial: Env, username: string, password: string, key: string)
    ensures var env := SetDefaults(initial, username, password, key);
            GetOr(env, PASSWORD, "") == GetOr(initial, PASSWORD, password) && GetOr(env, SECRET_KEY, "") == GetOr(initial, SECRET_KEY, key)
  {
    NamesAreNames();
  }

  /** The process whose credentials are in the file that another has loaded. */
  lemma TheGenerator(before: State, s: State, i: nat) returns (o: nat)
    requires Starting(before) && Inv(before, s) && before.file == Absent && i < |s.procs| && UsesFile(s.procs[i])
    ensures o < |s.procs| && HasGenerated(s.procs[o]) && (HasGenerated(s.procs[i]) ==> i == o)
    ensures s.file.Present? && Parse(s.file.text) == Parse(Contents(s.procs[o]))
    ensures var values := Parse(s.file.text);
            PASSWORD in values && values[PASSWORD] == s.procs[o].password && SECRET_KEY in values && values[SECRET_KEY] == s.procs[o].key
    ensures s.procs[o].password != ""
  {
    hide Parse, Content, Clean, SetDefaults;
    assert Consistent(s.file, s.procs[i]);
    o :| 0 <= o < |s.procs| && Creator(s.procs[o]);
    var g := s.procs[o];
    assert Consistent(s.file, g) && SameProcess(before.procs[o], g);
    EmptyIsIncomplete();
    assert HasGenerated(g);
    PasswordAndKeySurvive(GetOr(g.initial, USERNAME, "admin"), g.password, g.key);
  }

  /** On a first run, every process that comes back with file credentials does so after some process has
      generated them. It holds that process's password exactly when the password variable was absent from
      its environment (not merely empty), and its key exactly when the key variable was absent or equal. */
  lemma FirstRunAgreement(before: State, schedule: seq<nat>, i: nat)
    requires Starting(before) && before.file == Absent && i < |before.procs|
    requires UsesFile(Exec(before, schedule).procs[i])
    ensures var s := Exec(before, schedule);
            exists o | 0 <= o < |s.procs| ::
              HasGenerated(s.procs[o])
              && (GetOr(s.procs[i].env, PASSWORD, "") == before.procs[o].password <==> PASSWORD !in before.procs[i].initial)
              && (GetOr(s.procs[i].env, SECRET_KEY, "") == before.procs[o].key
                  <==> SECRET_KEY !in before.procs[i].initial || before.procs[i].initial[SECRET_KEY] == before.procs[o].key)
  {
    hide Parse, Content, Clean, SetDefaults, Exec;
    Reachable(before, schedule);
    var s := Exec(before, schedule);
    var p := s.procs[i];
    assert Consistent(s.file, p) && SameProcess(before.procs[i], p);
    var o := TheGenerator(before, s, i);
    var g := s.procs[o];
    assert SameProcess(before.procs[o], g);
    if HasGenerated(p) {
      Held(p.initial, GetOr(p.initial, USERNAME, "admin"), p.password, p.key);
    } else {
      var values := Parse(s.file.text);
      Held(p.initial, UsernameIn(values), values[PASSWORD], values[SECRET_KEY]);
    }
  }

  /** Two processes that come back with file credentials agree, unless one had the variable set. */
  lemma TwoProcessesAgree(before: State, schedule: seq<nat>, i: nat, j: nat)
    requires Starting(before) && before.file == Absent && i < |before.procs| && j < |before.procs|
    requires UsesFile(Exec(before, schedule).procs[i]) && UsesFile(Exec(before, schedule).procs[j])
    requires forall k | k in {i, j} :: PASSWORD !in before.procs[k].initial && SECRET_KEY !in before.procs[k].initial
    ensures var s := Exec(before, schedule);
            GetOr(s.procs[i].env, PASSWORD, "") == GetOr(s.procs[j].env, PASSWORD, "") != ""
            && GetOr(s.procs[i].env, SECRET_KEY, "") == GetOr(s.procs[j].env, SECRET_KEY, "") != ""
  {
    hide Exec, Clean;
    Reachable(before, schedule);
    FirstRunAgreement(before, schedule, i);
    FirstRunAgreement(before, schedule, j);
    var s := Exec(before, schedule);
    var o :| 0 <= o < |s.procs| && HasGenerated(s.procs[o]) && GetOr(s.procs[i].env, PASSWORD, "") == before.procs[o].password
             && GetOr(s.procs[i].env, SECRET_KEY, "") == before.procs[o].key;
    var m :| 0 <= m < |s.procs| && HasGenerated(s.procs[m]) && GetOr(s.procs[j].env, PASSWORD, "") == before.procs[m].password
             && GetOr(s.procs[j].env, SECRET_KEY, "") == before.procs[m].key;
    AtMostOneGenerates(before, schedule, o, m);
  }

  /** On a first run a process fails only by reading the file between its creation and the write. */
  lemma FailsOnlyBeforeTheWrite(before: State, schedule: seq<nat>, i: nat)
    requires Starting(before) && before.file == Absent && i < |before.procs|
    requires var s := Exec(before, schedule); s.procs[i].phase != Failed && Step(s, i).procs[i].phase == Failed
    ensures var s := Exec(before, schedule);
            s.procs[i].phase == Loading && s.file == Present("") && exists o | 0 <= o < |s.procs| :: o != i && s.procs[o].phase == Writing
  {
    hide Parse, Content, Clean, Exec, SetDefaults;
    Reachable(before, schedule);
    var s := Exec(before, schedule);
    assert Consistent(s.file, s.procs[i]);
    var o :| 0 <= o < |s.procs| && Creator(s.procs[o]);
    assert Consistent(s.file, s.procs[o]) && SameProcess(before.procs[o], s.procs[o]);
    PasswordAndKeySurvive(GetOr(s.procs[o].initial, USERNAME, "admin"), s.procs[o].password, s.procs[o].key);
  }

  /** With the file already there, no process changes it, and each that comes back with file credentials
      and had no variable set holds the password and the key in the file. */
  lemma ExistingFileIsKept(before: State, schedule: seq<nat>, i: nat)
    requires Starting(before) && before.file.Present? && i < |before.procs|
    ensures var s := Exec(before, schedule);
            s.file == before.file
            && (UsesFile(s.procs[i]) ==>
                  var values := Parse(before.file.text);
                  Complete(values) && s.procs[i].phase.outcome.source == FromFile
                  && (PASSWORD !in before.procs[i].initial ==> GetOr(s.procs[i].env, PASSWORD, "") == values[PASSWORD])
                  && (SECRET_KEY !in before.procs[i].initial ==> GetOr(s.procs[i].env, SECRET_KEY, "") == values[SECRET_KEY]))
  {
    hide Parse, Content, Clean;
    NamesAreNames();
    Reachable(before, schedule);
    var s := Exec(before, schedule);
    assert Consistent(s.file, s.procs[i]) && SameProcess(before.procs[i], s.procs[i]);
  }

  /** Alone on a first run, with the password variable preset to the empty string: the process reports the
      generated password but keeps the empty one. */
  lemma EmptyPresetKeepsNoPassword(password: string, key: string)
    requires Clean(password) && password != "" && Clean(key) && key != ""
    ensures var p := Process(map[PASSWORD := ""], map[PASSWORD := ""], password, key, Start);
            var q := Exec(State(Absent, [p]), [0, 0, 0]).procs[0];
            HasGenerated(q) && q.phase.outcome.shown == Some(password) && GetOr(q.env, PASSWORD, "") == ""
  {
    hide Content;
    NamesAreNames();
    AloneByThree(Absent, Process(map[PASSWORD := ""], map[PASSWORD := ""], password, key, Start));
  }
}
