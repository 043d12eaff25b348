/** The action model of action.py: decoding an action record into one of
    five variants, and running an action, which the model records as the
    trace of effects it has on the host (sleeps, injected keystrokes, window
    activation, program launch). */
module Actions {
  import opened Yaml

  /** An action as action.py builds it. Every field read from the record
      keeps whatever value the record held: action.py checks no types. */
  datatype Action =
    | Hotkey(hotkey: Value, name: Value)
    | TypeText(text: Value, name: Value)
    | ActivateWindow(programPath: Value, name: Value)
    | Sequential(steps: seq<Action>, name: Value, delayMs: int)
    | Repeat(inner: Action, name: Value, count: int, delayMs: int)

  const DefaultDelayMs := 20
  const DefaultCount := 0

  // ---------------------------------------------------------------------
  // Decoding
  // ---------------------------------------------------------------------

  /** `data.get('name', '')` */
  function NameOf(data: Entries): (r: Value)
    ensures HasKey(data, "name") ==> r == Lookup(data, "name")
    ensures !HasKey(data, "name") ==> r == Str("")
  {
    Get(data, "name", Str(""))
  }

  /** `int(d.get(key, default))` */
  function IntField(data: Entries, key: string, default: int): (r: Result<int>)
    ensures !HasKey(data, key) ==> r == Ok(default)
    ensures HasKey(data, key) ==> r == ToInt(Lookup(data, key))
  {
    ToInt(Get(data, key, Int(default)))
  }

  /** HotkeyAction.parse */
  function ParseHotkey(data: Entries): Option<Action>
  {
    if HasKey(data, "hotkey") then Some(Hotkey(Lookup(data, "hotkey"), NameOf(data))) else None
  }

  /** TypeAction.parse */
  function ParseTypeText(data: Entries): Option<Action>
  {
    if HasKey(data, "type") then Some(TypeText(Lookup(data, "type"), NameOf(data))) else None
  }

  /** ActivateWindowAction.parse */
  function ParseActivateWindow(data: Entries): Option<Action>
  {
    if HasKey(data, "activateWindow")
    then Some(ActivateWindow(Lookup(data, "activateWindow"), NameOf(data)))
    else None
  }

  /** The variant a record selects: the position, in the order parse_action
      tries them, of the first variant key the record holds (5: none). */
  function FirstVariant(entries: Entries): (k: nat)
    ensures k <= 5
  {
    if HasKey(entries, "hotkey") then 0
    else if HasKey(entries, "type") then 1
    else if HasKey(entries, "activateWindow") then 2
    else if HasKey(entries, "sequence") then 3
    else if HasKey(entries, "repeat") then 4
    else 5
  }

  /** parse_action: a record that is not a mapping gives None, and a
      mapping never does (ParseActionOrder says what it gives). */
  function ParseAction(spec: Value): (r: Result<Option<Action>>)
    decreases spec, 2
    ensures !spec.Dict? <==> r == Ok(None)
  {
    if !spec.Dict? then Ok(None)
    else if ParseHotkey(spec.entries).Some? then Ok(ParseHotkey(spec.entries))
    else if ParseTypeText(spec.entries).Some? then Ok(ParseTypeText(spec.entries))
    else if ParseActivateWindow(spec.entries).Some? then Ok(ParseActivateWindow(spec.entries))
    else
      var s := ParseSequential(spec);
      if s != Ok(None) then s
      else
        var r := ParseRepeat(spec);
        if r != Ok(None) then r else Raise(ValueError)
  }

  /** A mapping is tried as hotkey, type, activateWindow, sequence and
      repeat, in that order, and the first variant whose key is present
      wins; a mapping with none of those keys raises ValueError. Every
      action decoded is named by NameOf. */
  lemma ParseActionOrder(spec: Value)
    requires spec.Dict?
    ensures var e := spec.entries; var r := ParseAction(spec);
      && (FirstVariant(e) == 0 ==> r == Ok(Some(Hotkey(Lookup(e, "hotkey"), NameOf(e)))))
      && (FirstVariant(e) == 1 ==> r == Ok(Some(TypeText(Lookup(e, "type"), NameOf(e)))))
      && (FirstVariant(e) == 2 ==> r == Ok(Some(ActivateWindow(Lookup(e, "activateWindow"), NameOf(e)))))
      && (FirstVariant(e) == 3 ==> r == ParseSequential(spec))
      && (FirstVariant(e) == 4 ==> r == ParseRepeat(spec))
      && (FirstVariant(e) == 5 ==> r == Raise(ValueError))
      && (r.Ok? && r.value.Some? ==> r.value.value.name == NameOf(e))
  {
    ParseSequentialMeaning(spec);
    ParseRepeatMeaning(spec);
  }

  /** RepeatAction.parse: None without a `repeat` key (ParseRepeatMeaning says
      the rest). */
  function ParseRepeat(spec: Value): (r: Result<Option<Action>>)
    requires spec.Dict?
    decreases spec, 1
    ensures !HasKey(spec.entries, "repeat") <==> r == Ok(None)
  {
    match Find(spec.entries, "repeat")
    case None => Ok(None)
    case Some(i) =>
      var body := spec.entries[i].1;
      if !body.Dict? then Raise(TypeError)
      else match Find(body.entries, "action")
        case None => Raise(KeyError)
        case Some(j) =>
          match ParseAction(body.entries[j].1)
          case Raise(e) => Raise(e)
          case Ok(None) => Raise(ValueError)
          case Ok(Some(inner)) =>
            match IntField(body.entries, "count", DefaultCount)
            case Raise(e) => Raise(e)
            case Ok(count) =>
              match IntField(body.entries, "delayMs", DefaultDelayMs)
              case Raise(e) => Raise(e)
              case Ok(delay) => Ok(Some(Repeat(inner, NameOf(spec.entries), count, delay)))
  }

  /** SequentialAction.parse: None without a `sequence` key
      (ParseSequentialMeaning says the rest). */
  function ParseSequential(spec: Value): (r: Result<Option<Action>>)
    requires spec.Dict?
    decreases spec, 1
    ensures !HasKey(spec.entries, "sequence") <==> r == Ok(None)
  {
    match Find(spec.entries, "sequence")
    case None => Ok(None)
    case Some(i) =>
      var body := spec.entries[i].1;
      if !body.Dict? then Raise(TypeError)
      else match Find(body.entries, "steps")
        case None => Raise(KeyError)
        case Some(j) =>
          match ParseStepValues(body.entries[j].1)
          case Raise(e) => Raise(e)
          case Ok(steps) =>
            match IntField(body.entries, "delayMs", DefaultDelayMs)
            case Raise(e) => Raise(e)
            case Ok(delay) => Ok(Some(Sequential(steps, NameOf(spec.entries), delay)))
  }

  /** `repeat.action` must be present and must parse to an action; `count`
      defaults to 0 and `delayMs` to 20; the other exceptions of reading the
      record propagate. */
  lemma ParseRepeatMeaning(spec: Value)
    requires spec.Dict?
    ensures HasKey(spec.entries, "repeat") && Subscript(Lookup(spec.entries, "repeat"), "action").Raise? ==>
      ParseRepeat(spec) == Raise(Subscript(Lookup(spec.entries, "repeat"), "action").error)
    ensures (HasKey(spec.entries, "repeat") && Subscript(Lookup(spec.entries, "repeat"), "action").Ok? &&
             ParseAction(Subscript(Lookup(spec.entries, "repeat"), "action").value) == Ok(None)) ==>
      ParseRepeat(spec) == Raise(ValueError)
    ensures ParseRepeat(spec).Ok? && ParseRepeat(spec).value.Some? ==>
      var body := Lookup(spec.entries, "repeat");
      var a := ParseRepeat(spec).value.value;
      && a.Repeat? && a.name == NameOf(spec.entries)
      && body.Dict? && HasKey(body.entries, "action")
      && ParseAction(Lookup(body.entries, "action")) == Ok(Some(a.inner))
      && IntField(body.entries, "count", DefaultCount) == Ok(a.count)
      && IntField(body.entries, "delayMs", DefaultDelayMs) == Ok(a.delayMs)
  {
    match Find(spec.entries, "repeat")
    case None =>
    case Some(i) =>
      var body := spec.entries[i].1;
      assert Lookup(spec.entries, "repeat") == body;
      if body.Dict? {
        match Find(body.entries, "action")
        case None =>
          assert Subscript(body, "action") == Raise(KeyError);
        case Some(j) =>
          var actionSpec := body.entries[j].1;
          assert actionSpec == Lookup(body.entries, "action");
          assert Subscript(body, "action") == Ok(actionSpec);
          match ParseAction(actionSpec)
          case Raise(_) =>
          case Ok(None) =>
          case Ok(Some(inner)) =>
            match IntField(body.entries, "count", DefaultCount)
            case Raise(_) =>
            case Ok(count) =>
              match IntField(body.entries, "delayMs", DefaultDelayMs)
              case Raise(_) =>
              case Ok(delay) =>
                assert ParseRepeat(spec) == Ok(Some(Repeat(inner, NameOf(spec.entries), count, delay)));
      } else {
        assert Subscript(body, "action") == Raise(TypeError);
      }
  }

  /** `sequence.steps` is iterated and every step parsed in order
      (ParseStepsAllParsed and ParseStepsFirstFailure say how); `delayMs` defaults to 20. */
  lemma ParseSequentialMeaning(spec: Value)
    requires spec.Dict?
    ensures HasKey(spec.entries, "sequence") && Subscript(Lookup(spec.entries, "sequence"), "steps").Raise? ==>
      ParseSequential(spec) == Raise(Subscript(Lookup(spec.entries, "sequence"), "steps").error)
    ensures ParseSequential(spec).Ok? && ParseSequential(spec).value.Some? ==>
      var body := Lookup(spec.entries, "sequence");
      var a := ParseSequential(spec).value.value;
      && a.Sequential? && a.name == NameOf(spec.entries)
      && body.Dict? && HasKey(body.entries, "steps")
      && ParseStepValues(Lookup(body.entries, "steps")) == Ok(a.steps)
      && IntField(body.entries, "delayMs", DefaultDelayMs) == Ok(a.delayMs)
  {
  }

  /** The steps of a sequence from the value under `steps`: whatever Python
      iterates over. A mapping yields its keys and a string its characters,
      neither of which is an action record. */
  function ParseStepValues(v: Value): (r: Result<seq<Action>>)
    decreases v, 1
    ensures !(v.List? || v.Dict? || v.Str?) ==> r == Raise(TypeError)
  {
    match v
    case List(items) => ParseSteps(items)
    case Dict(entries) => if entries == [] then Ok([]) else Raise(ValueError)
    case Str(s) => if s == [] then Ok([]) else Raise(ValueError)
    case _ => Raise(TypeError)
  }

  /** The step specs of a list, parsed in order until the first one that is
      not an action. */
  function ParseSteps(items: seq<Value>): (r: Result<seq<Action>>)
    decreases items, 1
  {
    CollectSteps(ParseEach(items))
  }

  /** Each step spec, parsed on its own as a step. */
  function ParseEach(items: seq<Value>): (rs: seq<Result<Action>>)
    decreases items, 0
    ensures |rs| == |items|
    ensures forall i :: 0 <= i < |items| ==> rs[i] == AsStep(ParseAction(items[i]))
  {
    seq(|items|, i requires 0 <= i < |items| => AsStep(ParseAction(items[i])))
  }

  /** A step spec that is not an action makes the sequence raise
      ValueError; an exception from parsing it propagates. */
  function AsStep(p: Result<Option<Action>>): (r: Result<Action>)
    ensures r.Ok? <==> p.Ok? && p.value.Some?
    ensures r.Ok? ==> p == Ok(Some(r.value))
    ensures p == Ok(None) ==> r == Raise(ValueError)
    ensures p.Raise? ==> r == Raise(p.error)
  {
    match p
    case Raise(e) => Raise(e)
    case Ok(None) => Raise(ValueError)
    case Ok(Some(a)) => Ok(a)
  }

  /** The loop of SequentialAction.parse over the parsed steps, in order:
      it stops at the first one that raised. */
  function CollectSteps(rs: seq<Result<Action>>): Result<seq<Action>>
  {
    if rs == [] then Ok([])
    else match CollectSteps(rs[..|rs| - 1])
      case Raise(e) => Raise(e)
      case Ok(steps) =>
        match rs[|rs| - 1]
        case Raise(e) => Raise(e)
        case Ok(a) => Ok(steps + [a])
  }

  lemma CollectStepsSnoc(rs: seq<Result<Action>>, k: nat)
    requires k < |rs|
    ensures CollectSteps(rs[..k + 1]) == match CollectSteps(rs[..k])
      case Ok(steps) => (match rs[k] case Ok(a) => Ok(steps + [a]) case Raise(e) => Raise(e))
      case failed => failed
  {
    assert rs[..k + 1][..k] == rs[..k];
  }

  /** The loop succeeds exactly when every step parsed, and then holds the
      steps' actions, in order. */
  lemma {:induction false} CollectStepsAllOk(rs: seq<Result<Action>>)
    ensures CollectSteps(rs).Ok? <==> forall i :: 0 <= i < |rs| ==> rs[i].Ok?
    ensures CollectSteps(rs).Ok? ==>
      |CollectSteps(rs).value| == |rs| && forall i :: 0 <= i < |rs| ==> rs[i] == Ok(CollectSteps(rs).value[i])
  {
    if rs != [] {
      var init := rs[..|rs| - 1];
      CollectStepsAllOk(init);
      assert forall i :: 0 <= i < |init| ==> init[i] == rs[i];
    }
  }

  lemma {:induction false} CollectStepsStopsAtFailure(rs: seq<Result<Action>>, k: nat)
    requires k <= |rs| && CollectSteps(rs[..k]).Raise?
    ensures CollectSteps(rs) == CollectSteps(rs[..k])
    decreases |rs| - k
  {
    if k < |rs| {
      assert rs[..k + 1][..k] == rs[..k];
      CollectStepsStopsAtFailure(rs, k + 1);
    } else {
      assert rs[..k] == rs;
    }
  }

  /** Otherwise the first step that raised decides the exception. */
  lemma CollectStepsFirstFailure(rs: seq<Result<Action>>, i: nat)
    requires i < |rs| && rs[i].Raise?
    requires forall j :: 0 <= j < i ==> rs[j].Ok?
    ensures CollectSteps(rs) == Raise(rs[i].error)
  {
    var before := rs[..i];
    assert forall j :: 0 <= j < i ==> before[j] == rs[j];
    CollectStepsAllOk(before);
    CollectStepsSnoc(rs, i);
    CollectStepsStopsAtFailure(rs, i + 1);
  }

  /** The steps of a sequence parse exactly when every step spec is an
      action, and are then those actions, in list order. */
  lemma ParseStepsAllParsed(items: seq<Value>)
    ensures ParseSteps(items).Ok? <==>
      forall i :: 0 <= i < |items| ==> ParseAction(items[i]).Ok? && ParseAction(items[i]).value.Some?
    ensures ParseSteps(items).Ok? ==>
      |ParseSteps(items).value| == |items| &&
      forall i :: 0 <= i < |items| ==> ParseAction(items[i]) == Ok(Some(ParseSteps(items).value[i]))
  {
    CollectStepsAllOk(ParseEach(items));
  }

  /** Otherwise the first step spec that is not an action decides the
      exception: its own, or ValueError when it parsed to None. */
  lemma ParseStepsFirstFailure(items: seq<Value>, i: nat)
    requires i < |items| && !(ParseAction(items[i]).Ok? && ParseAction(items[i]).value.Some?)
    requires forall j :: 0 <= j < i ==> ParseAction(items[j]).Ok? && ParseAction(items[j]).value.Some?
    ensures ParseSteps(items) == Raise(AsStep(ParseAction(items[i])).error)
  {
    CollectStepsFirstFailure(ParseEach(items), i);
  }

  /** Parsing the steps of a sequence raises TypeError when the value is not
      iterable, and otherwise is the loop over the step specs it yields. */
  lemma StepValuesCollect(v: Value)
    ensures Iterate(v).Raise? ==> ParseStepValues(v) == Raise(TypeError)
    ensures Iterate(v).Ok? ==> ParseStepValues(v) == CollectSteps(ParseEach(Iterate(v).value))
  {
    if Iterate(v).Ok? && !v.List? && Iterate(v).value != [] {
      var items := Iterate(v).value;
      assert ParseAction(items[0]) == Ok(None);
      CollectStepsFirstFailure(ParseEach(items), 0);
    }
  }

  /** SequentialAction.parse as the source writes it, with the loop that
      builds the list of steps. */
  method ParseSequentialAction(data: Entries) returns (r: Result<Option<Action>>)
    ensures r == ParseSequential(Dict(data))
  {
    if !HasKey(data, "sequence") {
      return Ok(None);
    }
    var body := Lookup(data, "sequence");
    var stepsSpec := Subscript(body, "steps");
    if stepsSpec.Raise? {
      return Raise(stepsSpec.error);
    }
    StepValuesCollect(stepsSpec.value);
    var iterated := Iterate(stepsSpec.value);
    if iterated.Raise? {
      return Raise(iterated.error);
    }
    var items := iterated.value;
    ghost var rs := ParseEach(items);
    var stepActions: seq<Action> := [];
    for k := 0 to |items|
      invariant CollectSteps(rs[..k]) == Ok(stepActions)
    {
      var a := ParseAction(items[k]);
      assert rs[k] == AsStep(a);
      CollectStepsSnoc(rs, k);
      if a.Raise? || a.value.None? {
        CollectStepsStopsAtFailure(rs, k + 1);
        return Raise(AsStep(a).error);
      }
      stepActions := stepActions + [a.value.value];
    }
    assert rs[..|items|] == rs;
    var delay := IntField(body.entries, "delayMs", DefaultDelayMs);
    if delay.Raise? {
      return Raise(delay.error);
    }
    r := Ok(Some(Sequential(stepActions, NameOf(data), delay.value)));
  }

  // ---------------------------------------------------------------------
  // Encoding back to a record: the partner of the decoder
  // ---------------------------------------------------------------------

  /** The configuration record that describes `a`. */
  function Unparse(a: Action): Value
    decreases a, 1
  {
    match a
    case Hotkey(h, n) => Dict([("hotkey", h), ("name", n)])
    case TypeText(t, n) => Dict([("type", t), ("name", n)])
    case ActivateWindow(p, n) => Dict([("activateWindow", p), ("name", n)])
    case Sequential(steps, n, d) =>
      Dict([("sequence", Dict([("steps", List(UnparseSteps(steps))), ("delayMs", Int(d))])), ("name", n)])
    case Repeat(inner, n, c, d) =>
      Dict([("repeat", Dict([("action", Unparse(inner)), ("count", Int(c)), ("delayMs", Int(d))])), ("name", n)])
  }

  function UnparseSteps(steps: seq<Action>): (r: seq<Value>)
    decreases steps
    ensures |r| == |steps|
    ensures forall i :: 0 <= i < |steps| ==> r[i] == Unparse(steps[i])
  {
    if steps == [] then [] else [Unparse(steps[0])] + UnparseSteps(steps[1..])
  }

  /** Every action survives being written as a record and decoded again:
      the decoder loses none of the fields it supports. */
  lemma {:induction false} ParseUnparse(a: Action)
    ensures ParseAction(Unparse(a)) == Ok(Some(a))
    decreases a, 1
  {
    match a
    case Hotkey(h, n) =>
    case TypeText(t, n) =>
      assert Find(Unparse(a).entries, "name") == Some(1) by { assert "type"[0] != "name"[0]; }
    case ActivateWindow(p, n) =>
      assert Find(Unparse(a).entries, "type") == None by { assert "name"[0] != "type"[0]; }
    case Sequential(steps, n, d) =>
      ParseUnparseSteps(steps);
      ParseUnparseSequential(UnparseSteps(steps), steps, n, d);
    case Repeat(inner, n, c, d) =>
      ParseUnparse(inner);
      ParseUnparseRepeat(Unparse(inner), inner, n, c, d);
  }

  lemma ParseUnparseSequential(items: seq<Value>, steps: seq<Action>, n: Value, d: int)
    requires ParseSteps(items) == Ok(steps)
    ensures ParseAction(Dict([("sequence", Dict([("steps", List(items)), ("delayMs", Int(d))])), ("name", n)])) ==
      Ok(Some(Sequential(steps, n, d)))
  {
    var body := Dict([("steps", List(items)), ("delayMs", Int(d))]);
    var spec := Dict([("sequence", body), ("name", n)]);
    FindInPair("sequence", body, "name", n);
    FindInPair("steps", List(items), "delayMs", Int(d));
    assert "type"[0] != "name"[0];
    assert FirstVariant(spec.entries) == 3;
    assert ParseSequential(spec) == Ok(Some(Sequential(steps, n, d)));
    ParseActionOrder(spec);
  }

  lemma ParseUnparseRepeat(innerSpec: Value, inner: Action, n: Value, c: int, d: int)
    requires ParseAction(innerSpec) == Ok(Some(inner))
    ensures ParseAction(Dict([("repeat", Dict([("action", innerSpec), ("count", Int(c)), ("delayMs", Int(d))])), ("name", n)])) ==
      Ok(Some(Repeat(inner, n, c, d)))
  {
    var body := Dict([("action", innerSpec), ("count", Int(c)), ("delayMs", Int(d))]);
    var spec := Dict([("repeat", body), ("name", n)]);
    FindInPair("repeat", body, "name", n);
    FindInTriple("action", innerSpec, "count", Int(c), "delayMs", Int(d));
    assert "hotkey"[0] != "repeat"[0] && "type"[0] != "name"[0];
    assert !HasKey(spec.entries, "hotkey") && !HasKey(spec.entries, "type");
    assert !HasKey(spec.entries, "activateWindow") && !HasKey(spec.entries, "sequence");
    assert FirstVariant(spec.entries) == 4;
    assert ParseRepeat(spec) == Ok(Some(Repeat(inner, n, c, d)));
    ParseActionOrder(spec);
  }

  lemma {:induction false} ParseUnparseSteps(steps: seq<Action>)
    ensures ParseSteps(UnparseSteps(steps)) == Ok(steps)
    decreases steps
  {
    var rs := ParseEach(UnparseSteps(steps));
    forall i | 0 <= i < |steps| ensures rs[i] == Ok(steps[i]) {
      ParseUnparse(steps[i]);
    }
    CollectStepsAllOk(rs);
    assert CollectSteps(rs).value == steps;
  }


  // ---------------------------------------------------------------------
  // Running an action
  // ---------------------------------------------------------------------

  /** What running an action does to the host. Delays are in milliseconds. */
  datatype Effect =
    | Sleep(ms: int)
    | SendHotkey(combo: Value)
    | WriteText(text: Value)
    | RestoreWindow(hwnd: int)
    | SetForeground(hwnd: int)
    | StartFile(path: string)

  /** The effects of a run, and whether it returned (false: it raised after
      those effects, for instance from `time.sleep` of a negative delay). */
  datatype Run = Run(trace: seq<Effect>, completed: bool)

  /** The longest delay, in milliseconds, that `time.sleep` accepts: CPython
      converts the seconds to nanoseconds in a signed 64-bit integer and
      raises OverflowError for a longer one. */
  const MaxSleepMs: int := 9223372036854

  /** The magnitude from which `float()` of an integer raises OverflowError:
      2^1024 - 2^970, halfway between the largest finite double and 2^1024,
      which rounds up to infinity. */
  const FloatLimit: int := 0xfffffffffffffc00_0000000000000000_0000000000000000_0000000000000000_0000000000000000_0000000000000000_0000000000000000_0000000000000000_0000000000000000_0000000000000000_0000000000000000_0000000000000000_0000000000000000_0000000000000000_0000000000000000_0000000000000000

  /** `time.sleep(delay_ms / 1000)` returns: the delay is neither negative
      (ValueError) nor too long (OverflowError). */
  predicate SleepAccepts(delayMs: int)
  {
    0 <= delayMs <= MaxSleepMs
  }

  /** `float(delay_ms)` returns. */
  predicate FloatConverts(delayMs: int)
  {
    -FloatLimit < delayMs < FloatLimit
  }

  /** What the window manager reports while an action runs: the platform,
      the visible window (if any) whose process image is the given program,
      the foreground window, and which windows are minimised. */
  datatype Host = Host(
    onWindows: bool,
    findWindow: string -> Option<int>,
    foregroundWindow: int,
    isMinimized: int -> bool)

  /** The decision at the end of ActivateWindowAction.__run_windows: a
      matching window already in front is left alone; one that is not is
      restored if minimised and brought to the foreground; with no matching
      window (or a handle of 0, which Python treats as false) the program is
      launched. */
  function ActivateEffects(path: string, found: Option<int>, foreground: int, minimized: bool): seq<Effect>
  {
    if found.Some? && found.value != 0 then
      var hwnd := found.value;
      if foreground == hwnd then []
      else (if minimized then [RestoreWindow(hwnd)] else []) + [SetForeground(hwnd)]
    else [StartFile(path)]
  }

  /** ActivateWindowAction.run: nothing off Windows; a program path that is
      not a string makes the launch raise TypeError. */
  function ActivateRun(path: Value, host: Host): Run
  {
    if !host.onWindows then Run([], true)
    else if !path.Str? then Run([], false)
    else
      var found := host.findWindow(path.s);
      var minimized := found.Some? && host.isMinimized(found.value);
      Run(ActivateEffects(path.s, found, host.foregroundWindow, minimized), true)
  }

  /** The trace of `a.run()`. */
  function Exec(a: Action, host: Host): Run
    decreases a
  {
    match a
    case Hotkey(h, _) => Run([SendHotkey(h)], true)
    case TypeText(t, _) => Run([WriteText(t)], true)
    case ActivateWindow(p, _) => ActivateRun(p, host)
    case Sequential(steps, _, d) =>
      if FloatConverts(d) then ExecSteps(steps, d, host) else Run([], false)
    case Repeat(inner, _, c, d) =>
      if FloatConverts(d) then RepeatRuns(Exec(inner, host), d, if c > 0 then c else 0)
      else Run([], false)
  }

  /** The loop of SequentialAction.run, once `float(delay_ms)` has returned:
      sleep, then run the step, for each step in turn. */
  function ExecSteps(steps: seq<Action>, delayMs: int, host: Host): Run
    decreases steps
  {
    if steps == [] then Run([], true)
    else if !SleepAccepts(delayMs) then Run([], false)
    else
      var first := Exec(steps[0], host);
      if !first.completed then Run([Sleep(delayMs)] + first.trace, false)
      else
        var rest := ExecSteps(steps[1..], delayMs, host);
        Run([Sleep(delayMs)] + first.trace + rest.trace, rest.completed)
  }

  /** The loop of RepeatAction.run, once `float(delay_ms)` has returned: `n`
      rounds of sleeping and running the inner action. */
  function RepeatRuns(inner: Run, delayMs: int, n: nat): Run
  {
    if n == 0 then Run([], true)
    else if !SleepAccepts(delayMs) then Run([], false)
    else if !inner.completed then Run([Sleep(delayMs)] + inner.trace, false)
    else
      var rest := RepeatRuns(inner, delayMs, n - 1);
      Run([Sleep(delayMs)] + inner.trace + rest.trace, rest.completed)
  }

  lemma {:induction false} RepeatRunsSnoc(inner: Run, delayMs: int, n: nat)
    requires RepeatRuns(inner, delayMs, n).completed
    ensures RepeatRuns(inner, delayMs, n + 1) ==
      if !SleepAccepts(delayMs) then Run(RepeatRuns(inner, delayMs, n).trace, false)
      else Run(RepeatRuns(inner, delayMs, n).trace + [Sleep(delayMs)] + inner.trace, inner.completed)
  {
    if n > 0 {
      RepeatRunsSnoc(inner, delayMs, n - 1);
    }
  }

  lemma {:induction false} ExecStepsSnoc(steps: seq<Action>, last: Action, delayMs: int, host: Host)
    requires ExecSteps(steps, delayMs, host).completed
    ensures ExecSteps(steps + [last], delayMs, host) ==
      if !SleepAccepts(delayMs) then Run(ExecSteps(steps, delayMs, host).trace, false)
      else
        var r := Exec(last, host);
        Run(ExecSteps(steps, delayMs, host).trace + [Sleep(delayMs)] + r.trace, r.completed)
  {
    if steps != [] {
      ExecStepsSnoc(steps[1..], last, delayMs, host);
      assert (steps + [last])[1..] == steps[1..] + [last];
    }
  }

  /** A sequence that raises in one step runs none of the steps after it. */
  lemma {:induction false} ExecStepsStopsAtFailure(steps: seq<Action>, k: nat, delayMs: int, host: Host)
    requires k <= |steps| && !ExecSteps(steps[..k], delayMs, host).completed
    ensures ExecSteps(steps, delayMs, host) == ExecSteps(steps[..k], delayMs, host)
  {
    assert k > 0;
    assert steps[..k][0] == steps[0];
    assert steps[..k][1..] == steps[1..][..k - 1];
    if SleepAccepts(delayMs) && Exec(steps[0], host).completed {
      ExecStepsStopsAtFailure(steps[1..], k - 1, delayMs, host);
    }
  }

  /** `a.run()`, with the loops of RepeatAction.run and SequentialAction.run. */
  method RunAction(a: Action, host: Host) returns (trace: seq<Effect>, completed: bool)
    ensures Run(trace, completed) == Exec(a, host)
    decreases a
  {
    match a
    case Hotkey(h, _) =>
      trace, completed := [SendHotkey(h)], true;
    case TypeText(t, _) =>
      trace, completed := [WriteText(t)], true;
    case ActivateWindow(p, _) =>
      var r := ActivateRun(p, host);
      trace, completed := r.trace, r.completed;
    case Repeat(inner, _, count, delayMs) =>
      ghost var innerRun := Exec(inner, host);
      if !FloatConverts(delayMs) {
        trace, completed := [], false;
        return;
      }
      trace, completed := [], true;
      var i := 0;
      while i < count
        invariant 0 <= i <= (if count > 0 then count else 0)
        invariant RepeatRuns(innerRun, delayMs, i) == Run(trace, true)
      {
        RepeatRunsSnoc(innerRun, delayMs, i);
        if !SleepAccepts(delayMs) {
          completed := false;
          return;
        }
        trace := trace + [Sleep(delayMs)];
        var t, ok := RunAction(inner, host);
        trace := trace + t;
        if !ok {
          completed := false;
          return;
        }
        i := i + 1;
      }
    case Sequential(steps, _, delayMs) =>
      if !FloatConverts(delayMs) {
        trace, completed := [], false;
        return;
      }
      trace, completed := [], true;
      for k := 0 to |steps|
        invariant ExecSteps(steps[..k], delayMs, host) == Run(trace, true)
      {
        assert steps[..k + 1] == steps[..k] + [steps[k]];
        ExecStepsSnoc(steps[..k], steps[k], delayMs, host);
        if !SleepAccepts(delayMs) {
          completed := false;
          return;
        }
        trace := trace + [Sleep(delayMs)];
        var t, ok := RunAction(steps[k], host);
        trace := trace + t;
        if !ok {
          ExecStepsStopsAtFailure(steps, k + 1, delayMs, host);
          completed := false;
          return;
        }
      }
      assert steps[..|steps|] == steps;
  }

  // ---------------------------------------------------------------------
  // What a run promises
  // ---------------------------------------------------------------------

  /** `n` copies of `s`, one after the other. */
  function Repeated<T>(s: seq<T>, n: nat): (r: seq<T>)
    ensures |r| == n * |s|
  {
    if n == 0 then [] else s + Repeated(s, n - 1)
  }

  /** Copy number `k` of `s` sits at offset `k * |s|`. */
  lemma {:induction false} RepeatedChunk<T>(s: seq<T>, n: nat, k: nat)
    requires k < n
    ensures k * |s| + |s| <= |Repeated(s, n)|
    ensures Repeated(s, n)[k * |s| .. k * |s| + |s|] == s
  {
    if k > 0 {
      RepeatedChunk(s, n - 1, k - 1);
      assert k * |s| == |s| + (k - 1) * |s|;
    }
  }

  /** The per-step chunks of a sequence run, concatenated. */
  function Flatten<T>(chunks: seq<seq<T>>): seq<T>
  {
    if chunks == [] then [] else chunks[0] + Flatten(chunks[1..])
  }

  /** An action whose runs cannot raise: every delay converts to a float,
      every delay it may sleep is one `time.sleep` accepts, and every
      program path it may launch is a string. */
  predicate SafeToRun(a: Action)
    decreases a
  {
    match a
    case Hotkey(_, _) => true
    case TypeText(_, _) => true
    case ActivateWindow(p, _) => p.Str?
    case Sequential(steps, _, d) =>
      FloatConverts(d) && (steps != [] ==> SleepAccepts(d)) && StepsSafeToRun(steps)
    case Repeat(inner, _, c, d) =>
      FloatConverts(d) && (c > 0 ==> SleepAccepts(d)) && SafeToRun(inner)
  }

  predicate StepsSafeToRun(steps: seq<Action>)
    decreases steps
  {
    steps == [] || (SafeToRun(steps[0]) && StepsSafeToRun(steps[1..]))
  }

  /** A run of an action that is safe to run always returns. */
  lemma {:induction false} SafeRunCompletes(a: Action, host: Host)
    requires SafeToRun(a)
    ensures Exec(a, host).completed
    decreases a, 1
  {
    match a
    case Hotkey(_, _) =>
    case TypeText(_, _) =>
    case ActivateWindow(_, _) =>
    case Sequential(steps, _, d) => SafeStepsComplete(steps, d, host);
    case Repeat(inner, _, c, d) =>
      SafeRunCompletes(inner, host);
      RepeatRunsComplete(Exec(inner, host), d, if c > 0 then c else 0);
  }

  lemma {:induction false} SafeStepsComplete(steps: seq<Action>, delayMs: int, host: Host)
    requires StepsSafeToRun(steps) && (steps != [] ==> SleepAccepts(delayMs))
    ensures ExecSteps(steps, delayMs, host).completed
    decreases steps, 0
  {
    if steps != [] {
      SafeRunCompletes(steps[0], host);
      SafeStepsComplete(steps[1..], delayMs, host);
    }
  }

  lemma {:induction false} RepeatRunsComplete(inner: Run, delayMs: int, n: nat)
    requires inner.completed && (n > 0 ==> SleepAccepts(delayMs))
    ensures RepeatRuns(inner, delayMs, n).completed
  {
    if n > 0 {
      RepeatRunsComplete(inner, delayMs, n - 1);
    }
  }

  /** RepeatAction.run performs exactly max(count, 0) runs of the inner
      action, each preceded by one sleep of `delayMs`. */
  lemma {:induction false} RepeatRunsExactly(inner: Action, name: Value, count: int, delayMs: int, host: Host)
    requires SleepAccepts(delayMs) && Exec(inner, host).completed
    ensures var n := if count > 0 then count else 0;
      Exec(Repeat(inner, name, count, delayMs), host) ==
        Run(Repeated([Sleep(delayMs)] + Exec(inner, host).trace, n), true)
  {
    var n := if count > 0 then count else 0;
    RepeatRunsIsRepeated(Exec(inner, host), delayMs, n);
  }

  lemma {:induction false} RepeatRunsIsRepeated(inner: Run, delayMs: int, n: nat)
    requires SleepAccepts(delayMs) && inner.completed
    ensures RepeatRuns(inner, delayMs, n) == Run(Repeated([Sleep(delayMs)] + inner.trace, n), true)
  {
    if n > 0 {
      RepeatRunsIsRepeated(inner, delayMs, n - 1);
    }
  }

  /** A repeat whose delay does not convert to a float raises before its
      loop, whatever its count; one whose delay `time.sleep` refuses raises
      on its first sleep, before any inner run; otherwise a count of zero or
      less never runs the inner action. */
  lemma RepeatEdgeCases(inner: Action, name: Value, count: int, delayMs: int, host: Host)
    ensures !FloatConverts(delayMs) ==> Exec(Repeat(inner, name, count, delayMs), host) == Run([], false)
    ensures count <= 0 ==> Exec(Repeat(inner, name, count, delayMs), host) == Run([], FloatConverts(delayMs))
    ensures count > 0 && !SleepAccepts(delayMs) ==> Exec(Repeat(inner, name, count, delayMs), host) == Run([], false)
  {
  }

  /** The same edges for a sequence: a delay that does not convert to a
      float raises even with no steps, and a non-empty sequence whose delay
      `time.sleep` refuses raises before its first step. */
  lemma SequentialEdgeCases(steps: seq<Action>, name: Value, delayMs: int, host: Host)
    ensures !FloatConverts(delayMs) ==> Exec(Sequential(steps, name, delayMs), host) == Run([], false)
    ensures steps == [] ==> Exec(Sequential(steps, name, delayMs), host) == Run([], FloatConverts(delayMs))
    ensures steps != [] && !SleepAccepts(delayMs) ==> Exec(Sequential(steps, name, delayMs), host) == Run([], false)
  {
  }

  /** SequentialAction.run runs each step exactly once, in list order, with a
      sleep of `delayMs` before every step including the first. */
  lemma {:induction false} SequentialRunsInOrder(steps: seq<Action>, delayMs: int, host: Host)
    requires SleepAccepts(delayMs)
    requires forall i :: 0 <= i < |steps| ==> Exec(steps[i], host).completed
    ensures ExecSteps(steps, delayMs, host) ==
      Run(Flatten(seq(|steps|, i requires 0 <= i < |steps| => [Sleep(delayMs)] + Exec(steps[i], host).trace)), true)
  {
    if steps != [] {
      SequentialRunsInOrder(steps[1..], delayMs, host);
      var chunks := seq(|steps|, i requires 0 <= i < |steps| => [Sleep(delayMs)] + Exec(steps[i], host).trace);
      assert chunks[1..] == seq(|steps| - 1, i requires 0 <= i < |steps| - 1 => [Sleep(delayMs)] + Exec(steps[1..][i], host).trace);
    }
  }

  // ---------------------------------------------------------------------
  // What window activation achieves
  // ---------------------------------------------------------------------

  /** The part of the desktop the activation effects change. */
  datatype Desktop = Desktop(foreground: int, minimized: set<int>, launched: seq<string>)

  function Apply(effects: seq<Effect>, d: Desktop): Desktop
  {
    if effects == [] then d
    else
      var d' := match effects[0]
        case RestoreWindow(h) => d.(minimized := d.minimized - {h})
        case SetForeground(h) => d.(foreground := h)
        case StartFile(p) => d.(launched := d.launched + [p])
        case _ => d;
      Apply(effects[1..], d')
  }

  /** What the activation decision does to the desktop. A matching window
      already in front is left exactly as it is, even if minimised. Any other
      matching window is restored if minimised, then brought to the
      foreground, and no other window changes. When no window was found, exactly
      one launch of the program is requested and nothing else changes. */
  lemma ActivationBringsToFront(path: string, found: Option<int>, desk: Desktop)
    ensures var effs := ActivateEffects(path, found, desk.foreground,
                                        found.Some? && found.value in desk.minimized);
      var after := Apply(effs, desk);
      if found.Some? && found.value != 0 then
        var h := found.value;
        if desk.foreground == h then effs == [] && after == desk
        else
          && effs == (if h in desk.minimized then [RestoreWindow(h)] else []) + [SetForeground(h)]
          && after == desk.(foreground := h, minimized := desk.minimized - {h})
      else
        effs == [StartFile(path)] && after == desk.(launched := desk.launched + [path])
  {
    if found.Some? && found.value != 0 && desk.foreground != found.value {
      var h := found.value;
      var d1 := desk.(minimized := desk.minimized - {h});
      assert Apply([SetForeground(h)], d1) == d1.(foreground := h);
      assert Apply([SetForeground(h)], desk) == desk.(foreground := h);
      if h in desk.minimized {
        var effects := ActivateEffects(path, found, desk.foreground, true);
        assert effects == [RestoreWindow(h), SetForeground(h)];
        assert effects[1..] == [SetForeground(h)];
      } else {
        assert desk.minimized - {h} == desk.minimized;
      }
    }
  }
}
