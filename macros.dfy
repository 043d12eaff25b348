/** macros.py, the earlier action and layer model that is still shipped:
    four action variants (no repeat), a decoder that answers None where
    action.py raises, a sequence written as a bare list of step records
    and run with a fixed 10 ms pause before each step, and its own Layer. */
module Macros {
  import opened Yaml
  import Actions
  import Layers

  /** An action as macros.py builds it. Its name is always a string. */
  datatype Action =
    | Hotkey(hotkey: Value, name: string)
    | TypeText(text: Value, name: string)
    | ActivateWindow(programPath: Value, name: string)
    | Sequential(steps: seq<Action>, name: string)

  /** SequentialAction.run sleeps 0.01 s before each step. */
  const StepDelayMs := 10

  // ---------------------------------------------------------------------
  // Decoding
  // ---------------------------------------------------------------------

  /** The action's name: `spec['name']` when it is present and a string,
      `''` otherwise. */
  function NameOf(data: Entries): (n: string)
    ensures HasKey(data, "name") && Lookup(data, "name").Str? ==> n == Lookup(data, "name").s
    ensures !(HasKey(data, "name") && Lookup(data, "name").Str?) ==> n == ""
  {
    match Find(data, "name")
    case Some(i) => if data[i].1.Str? then data[i].1.s else ""
    case None => ""
  }

  /** The variant a record selects: the position, in the order
      __parse_action tries them, of the first variant key the record
      holds (4: none). */
  function FirstVariant(entries: Entries): (k: nat)
    ensures k <= 4
  {
    if HasKey(entries, "hotkey") then 0
    else if HasKey(entries, "type") then 1
    else if HasKey(entries, "activateWindow") then 2
    else if HasKey(entries, "sequence") then 3
    else 4
  }

  /** Layer.__parse_action: a record that is not a mapping gives None, and
      the only exception is the TypeError of iterating a sequence value
      that is not iterable (ParseActionOrder says the rest). */
  function ParseAction(spec: Value): (r: Result<Option<Action>>)
    decreases spec, 1
    ensures !spec.Dict? ==> r == Ok(None)
    ensures r.Raise? ==> r.error == TypeError
  {
    if !spec.Dict? then Ok(None)
    else
      var name := NameOf(spec.entries);
      match Find(spec.entries, "hotkey")
      case Some(i) => Ok(Some(Hotkey(spec.entries[i].1, name)))
      case None =>
        match Find(spec.entries, "type")
        case Some(i) => Ok(Some(TypeText(spec.entries[i].1, name)))
        case None =>
          match Find(spec.entries, "activateWindow")
          case Some(i) => Ok(Some(ActivateWindow(spec.entries[i].1, name)))
          case None =>
            match Find(spec.entries, "sequence")
            case Some(i) => SequenceOf(ParseStepValues(spec.entries[i].1), name)
            case None => Ok(None)
  }

  /** A mapping is tried as hotkey, type, activateWindow and sequence, in
      that order, and the first variant whose key is present wins, named by
      NameOf; a mapping with none of those keys gives None, where action.py
      raises. */
  lemma ParseActionOrder(spec: Value)
    requires spec.Dict?
    ensures var e := spec.entries; var r := ParseAction(spec);
      && (FirstVariant(e) == 0 ==> r == Ok(Some(Hotkey(Lookup(e, "hotkey"), NameOf(e)))))
      && (FirstVariant(e) == 1 ==> r == Ok(Some(TypeText(Lookup(e, "type"), NameOf(e)))))
      && (FirstVariant(e) == 2 ==> r == Ok(Some(ActivateWindow(Lookup(e, "activateWindow"), NameOf(e)))))
      && (FirstVariant(e) == 3 ==> r == SequenceOf(ParseStepValues(Lookup(e, "sequence")), NameOf(e)))
      && (FirstVariant(e) == 4 ==> r == Ok(None))
  {
  }

  /** The sequence action made of the parsed steps, if they all parsed. */
  function SequenceOf(steps: Result<Option<seq<Action>>>, name: string): (r: Result<Option<Action>>)
    ensures steps.Raise? ==> r == Raise(steps.error)
    ensures steps == Ok(None) ==> r == Ok(None)
    ensures steps.Ok? && steps.value.Some? ==> r == Ok(Some(Sequential(steps.value.value, name)))
  {
    match steps
    case Raise(e) => Raise(e)
    case Ok(None) => Ok(None)
    case Ok(Some(s)) => Ok(Some(Sequential(s, name)))
  }

  /** The steps of a sequence from the value under `sequence`: whatever
      Python iterates over. A mapping yields its keys and a string its
      characters, neither of which is an action record. */
  function ParseStepValues(v: Value): (r: Result<Option<seq<Action>>>)
    decreases v, 0
    ensures r.Raise? ==> r.error == TypeError
    ensures !(v.List? || v.Dict? || v.Str?) ==> r == Raise(TypeError)
  {
    match v
    case List(items) => ParseSteps(items)
    case Dict(entries) => if entries == [] then Ok(Some([])) else Ok(None)
    case Str(s) => if s == [] then Ok(Some([])) else Ok(None)
    case _ => Raise(TypeError)
  }

  /** The step records of a list, parsed in order: the first one that is
      not an action makes the sequence None, an exception propagates. */
  function ParseSteps(items: seq<Value>): (r: Result<Option<seq<Action>>>)
    decreases items, 1
    ensures r.Raise? ==> r.error == TypeError
  {
    var rs := ParseEach(items);
    CollectRaisesOnlyTypeError(rs);
    Collect(rs)
  }

  /** Each step record, parsed on its own. */
  function ParseEach(items: seq<Value>): (rs: seq<Result<Option<Action>>>)
    decreases items, 0
    ensures |rs| == |items|
    ensures forall i :: 0 <= i < |items| ==> rs[i] == ParseAction(items[i])
  {
    seq(|items|, i requires 0 <= i < |items| => ParseAction(items[i]))
  }

  predicate Parsed(p: Result<Option<Action>>)
  {
    p.Ok? && p.value.Some?
  }

  /** The loop of __parse_action over the parse results of the steps, in
      order: it stops at the first result that is None or an exception. */
  function Collect(rs: seq<Result<Option<Action>>>): Result<Option<seq<Action>>>
  {
    if rs == [] then Ok(Some([]))
    else match Collect(rs[..|rs| - 1])
      case Raise(e) => Raise(e)
      case Ok(None) => Ok(None)
      case Ok(Some(steps)) =>
        match rs[|rs| - 1]
        case Raise(e) => Raise(e)
        case Ok(None) => Ok(None)
        case Ok(Some(a)) => Ok(Some(steps + [a]))
  }

  lemma {:induction false} CollectRaisesOnlyTypeError(rs: seq<Result<Option<Action>>>)
    requires forall i :: 0 <= i < |rs| && rs[i].Raise? ==> rs[i].error == TypeError
    ensures Collect(rs).Raise? ==> Collect(rs).error == TypeError
  {
    if rs != [] {
      CollectRaisesOnlyTypeError(rs[..|rs| - 1]);
    }
  }

  lemma {:induction false} CollectAllParsed(rs: seq<Result<Option<Action>>>)
    ensures Parsed(SequenceOf(Collect(rs), "")) <==> forall i :: 0 <= i < |rs| ==> Parsed(rs[i])
    ensures Parsed(SequenceOf(Collect(rs), "")) ==>
      |Collect(rs).value.value| == |rs| &&
      forall i :: 0 <= i < |rs| ==> rs[i] == Ok(Some(Collect(rs).value.value[i]))
  {
    if rs != [] {
      var init := rs[..|rs| - 1];
      CollectAllParsed(init);
      assert forall i :: 0 <= i < |init| ==> init[i] == rs[i];
    }
  }

  lemma CollectSnoc(rs: seq<Result<Option<Action>>>, k: nat)
    requires k < |rs|
    ensures Collect(rs[..k + 1]) == match Collect(rs[..k])
      case Ok(Some(steps)) =>
        (match rs[k] case Ok(Some(a)) => Ok(Some(steps + [a])) case _ => StepFailure(rs[k]))
      case failed => failed
  {
    assert rs[..k + 1][..k] == rs[..k];
  }

  lemma {:induction false} CollectStopsAtFailure(rs: seq<Result<Option<Action>>>, k: nat)
    requires k <= |rs| && !Parsed(SequenceOf(Collect(rs[..k]), ""))
    ensures Collect(rs) == Collect(rs[..k])
    decreases |rs| - k
  {
    if k < |rs| {
      assert rs[..k + 1][..k] == rs[..k];
      CollectStopsAtFailure(rs, k + 1);
    } else {
      assert rs[..k] == rs;
    }
  }

  /** The steps parse to a sequence exactly when every step is an action,
      and the sequence then holds the steps' actions, in list order. */
  lemma ParseStepsAllParsed(items: seq<Value>)
    ensures Parsed(SequenceOf(ParseSteps(items), "")) <==>
      forall i :: 0 <= i < |items| ==> Parsed(ParseAction(items[i]))
    ensures Parsed(SequenceOf(ParseSteps(items), "")) ==>
      |ParseSteps(items).value.value| == |items| &&
      forall i :: 0 <= i < |items| ==> ParseAction(items[i]) == Ok(Some(ParseSteps(items).value.value[i]))
  {
    CollectAllParsed(ParseEach(items));
  }

  /** The outcome a step that is not an action gives the whole sequence. */
  function StepFailure(p: Result<Option<Action>>): Result<Option<seq<Action>>>
  {
    if p.Raise? then Raise(p.error) else Ok(None)
  }

  /** Otherwise the first step that is not an action decides the outcome:
      None, or the exception it raised; the steps after it are not parsed. */
  lemma ParseStepsFirstFailure(items: seq<Value>, i: nat)
    requires i < |items| && !Parsed(ParseAction(items[i]))
    requires forall j :: 0 <= j < i ==> Parsed(ParseAction(items[j]))
    ensures ParseSteps(items) == StepFailure(ParseAction(items[i]))
  {
    CollectFirstFailure(ParseEach(items), i);
  }

  lemma CollectFirstFailure(rs: seq<Result<Option<Action>>>, i: nat)
    requires i < |rs| && !Parsed(rs[i])
    requires forall j :: 0 <= j < i ==> Parsed(rs[j])
    ensures Collect(rs) == StepFailure(rs[i])
  {
    var before := rs[..i];
    assert forall j :: 0 <= j < i ==> before[j] == rs[j];
    CollectAllParsed(before);
    assert rs[..i + 1][..i] == before;
    assert Collect(rs[..i + 1]) == StepFailure(rs[i]);
    CollectStopsAtFailure(rs, i + 1);
  }

  /** Parsing the steps of an iterable value is the loop over the values it
      yields. */
  lemma StepValuesCollect(v: Value)
    requires Iterate(v).Ok?
    ensures ParseStepValues(v) == Collect(ParseEach(Iterate(v).value))
  {
    var items := Iterate(v).value;
    if !v.List? && items != [] {
      assert ParseAction(items[0]) == Ok(None);
      CollectFirstFailure(ParseEach(items), 0);
    }
  }

  /** The loop of __parse_action over the steps of a sequence. */
  method ParseSequence(stepSpecs: Value) returns (r: Result<Option<seq<Action>>>)
    ensures r == ParseStepValues(stepSpecs)
  {
    var iterated := Iterate(stepSpecs);
    if iterated.Raise? {
      return Raise(iterated.error);
    }
    var items := iterated.value;
    ghost var rs := ParseEach(items);
    StepValuesCollect(stepSpecs);
    var stepActions: seq<Action> := [];
    for k := 0 to |items|
      invariant Collect(rs[..k]) == Ok(Some(stepActions))
    {
      var a := ParseAction(items[k]);
      assert rs[k] == a;
      CollectSnoc(rs, k);
      if a.Raise? {
        CollectStopsAtFailure(rs, k + 1);
        return Raise(a.error);
      }
      if a.value.None? {
        CollectStopsAtFailure(rs, k + 1);
        return Ok(None);
      }
      stepActions := stepActions + [a.value.value];
    }
    assert rs[..|items|] == rs;
    r := Ok(Some(stepActions));
  }

  // ---------------------------------------------------------------------
  // Running an action
  // ---------------------------------------------------------------------

  /** What running an action does to the host: one of the effects action.py
      also has, or pywinauto's connect-to-or-start of a program followed by
      focusing its top window. */
  datatype Effect = Plain(effect: Actions.Effect) | FocusProgram(path: Value)

  /** The trace of `a.run()`. */
  function Exec(a: Action): seq<Effect>
    decreases a, 1
  {
    match a
    case Hotkey(h, _) => [Plain(Actions.SendHotkey(h))]
    case TypeText(t, _) => [Plain(Actions.WriteText(t))]
    case ActivateWindow(p, _) => [FocusProgram(p)]
    case Sequential(steps, _) => ExecSteps(steps)
  }

  /** SequentialAction.run after the steps `steps`: a 10 ms sleep, then the
      step, for each step in turn. */
  function ExecSteps(steps: seq<Action>): seq<Effect>
    decreases steps, 0
  {
    if steps == [] then []
    else ExecSteps(steps[..|steps| - 1]) + [Plain(Actions.Sleep(StepDelayMs))] + Exec(steps[|steps| - 1])
  }

  /** `a.run()`, with the loop of SequentialAction.run. */
  method RunAction(a: Action) returns (trace: seq<Effect>)
    ensures trace == Exec(a)
    decreases a
  {
    match a
    case Hotkey(h, _) =>
      trace := [Plain(Actions.SendHotkey(h))];
    case TypeText(t, _) =>
      trace := [Plain(Actions.WriteText(t))];
    case ActivateWindow(p, _) =>
      trace := [FocusProgram(p)];
    case Sequential(steps, _) =>
      trace := [];
      for k := 0 to |steps|
        invariant trace == ExecSteps(steps[..k])
      {
        assert steps[..k + 1][..k] == steps[..k];
        trace := trace + [Plain(Actions.Sleep(StepDelayMs))];
        var t := RunAction(steps[k]);
        trace := trace + t;
      }
      assert steps[..|steps|] == steps;
  }

  // ---------------------------------------------------------------------
  // How this model differs from action.py
  // ---------------------------------------------------------------------

  /** The action.py action that a macros.py action corresponds to: the same
      variant and name, and a sequence with a fixed 10 ms delay. */
  function ToAction(a: Action): Actions.Action
    decreases a, 1
  {
    match a
    case Hotkey(h, n) => Actions.Hotkey(h, Str(n))
    case TypeText(t, n) => Actions.TypeText(t, Str(n))
    case ActivateWindow(p, n) => Actions.ActivateWindow(p, Str(n))
    case Sequential(steps, n) => Actions.Sequential(ToSteps(steps), Str(n), StepDelayMs)
  }

  function ToSteps(steps: seq<Action>): (r: seq<Actions.Action>)
    decreases steps, 0
    ensures |r| == |steps|
  {
    if steps == [] then [] else ToSteps(steps[..|steps| - 1]) + [ToAction(steps[|steps| - 1])]
  }

  /** No window activation anywhere in the action. */
  predicate NoActivation(a: Action)
    decreases a
  {
    match a
    case ActivateWindow(_, _) => false
    case Sequential(steps, _) => forall i :: 0 <= i < |steps| ==> NoActivation(steps[i])
    case _ => true
  }

  /** action.py's effects, as effects of this model. */
  function Lift(t: seq<Actions.Effect>): (r: seq<Effect>)
    ensures |r| == |t|
  {
    seq(|t|, i requires 0 <= i < |t| => Plain(t[i]))
  }

  lemma LiftAppend(a: seq<Actions.Effect>, b: seq<Actions.Effect>)
    ensures Lift(a + b) == Lift(a) + Lift(b)
  {
  }

  /** An action without window activation runs here exactly as the
      corresponding action.py action does (a sequence with a 10 ms delay),
      and that run never raises. */
  lemma {:induction false} RunsAsActionPyDoes(a: Action, host: Actions.Host)
    requires NoActivation(a)
    ensures Actions.Exec(ToAction(a), host).completed
    ensures Exec(a) == Lift(Actions.Exec(ToAction(a), host).trace)
    decreases a, 1
  {
    match a
    case Hotkey(_, _) =>
    case TypeText(_, _) =>
    case Sequential(steps, _) => StepsRunAsActionPyDoes(steps, host);
  }

  lemma {:induction false} StepsRunAsActionPyDoes(steps: seq<Action>, host: Actions.Host)
    requires forall i :: 0 <= i < |steps| ==> NoActivation(steps[i])
    ensures Actions.ExecSteps(ToSteps(steps), StepDelayMs, host).completed
    ensures ExecSteps(steps) == Lift(Actions.ExecSteps(ToSteps(steps), StepDelayMs, host).trace)
    decreases steps, 0
  {
    if steps != [] {
      var init := steps[..|steps| - 1];
      var last := steps[|steps| - 1];
      assert forall i :: 0 <= i < |init| ==> init[i] == steps[i];
      StepsRunAsActionPyDoes(init, host);
      RunsAsActionPyDoes(last, host);
      assert ToSteps(steps) == ToSteps(init) + [ToAction(last)];
      Actions.ExecStepsSnoc(ToSteps(init), ToAction(last), StepDelayMs, host);
      var before := Actions.ExecSteps(ToSteps(init), StepDelayMs, host).trace;
      var own := Actions.Exec(ToAction(last), host).trace;
      assert Actions.ExecSteps(ToSteps(steps), StepDelayMs, host).trace == before + [Actions.Sleep(StepDelayMs)] + own;
      LiftAppend(before + [Actions.Sleep(StepDelayMs)], own);
      LiftAppend(before, [Actions.Sleep(StepDelayMs)]);
      assert ExecSteps(steps) == Lift(before) + [Plain(Actions.Sleep(StepDelayMs))] + Lift(own);
    }
  }

  /** A mapping with no variant key is None here, where action.py raises
      ValueError. */
  lemma UnrecognisedIsNotAnError(spec: Value)
    requires spec.Dict? && Actions.FirstVariant(spec.entries) == 5
    ensures ParseAction(spec) == Ok(None)
    ensures Actions.ParseAction(spec) == Raise(ValueError)
  {
  }

  /** A sequence written as a bare list, as macros.py reads it, makes
      action.py raise TypeError, since it looks for `sequence.steps`. */
  lemma BareListSequenceRejectedByActionPy(spec: Value)
    requires spec.Dict? && FirstVariant(spec.entries) == 3 && Lookup(spec.entries, "sequence").List?
    ensures Actions.ParseAction(spec) == Raise(TypeError)
  {
    assert Actions.FirstVariant(spec.entries) == 3;
  }

  /** A hotkey, type or activateWindow record with a string name, or none,
      decodes to the corresponding action in both models. */
  lemma SimpleVariantsAgree(spec: Value)
    requires spec.Dict? && FirstVariant(spec.entries) < 3
    requires HasKey(spec.entries, "name") ==> Lookup(spec.entries, "name").Str?
    ensures Parsed(ParseAction(spec))
    ensures Actions.ParseAction(spec) == Ok(Some(ToAction(ParseAction(spec).value.value)))
  {
    assert Actions.FirstVariant(spec.entries) == FirstVariant(spec.entries);
  }

  // ---------------------------------------------------------------------
  // The Layer of macros.py
  // ---------------------------------------------------------------------

  // macros.py's Layer is layer.py's Layer over a different action type, so
  // the members below (RunBinding, BindKeys and its lemmas, the default
  // layer) repeat the Layers module's for this module's Action.

  /** The state of a macros.py Layer object, as a value. */
  datatype LayerData = LayerData(
    name: Value,
    application: Value,
    keyActions: map<string, Action>,
    encoderInc: Option<Action>,
    encoderDec: Option<Action>,
    encoderBtn: Option<Action>)

  class Layer {
    var name: Value
    var application: Value
    var keyActions: map<string, Action>
    var encoderIncAction: Option<Action>
    var encoderDecAction: Option<Action>
    var encoderBtnAction: Option<Action>

    function Data(): LayerData
      reads this
    {
      LayerData(name, application, keyActions, encoderIncAction, encoderDecAction, encoderBtnAction)
    }

    /** Layer(name): no application and no bindings. */
    constructor(name: Value)
      ensures Data() == LayerData(name, Null, map[], None, None, None)
    {
      this.name := name;
      application := Null;
      keyActions := map[];
      encoderIncAction := None;
      encoderDecAction := None;
      encoderBtnAction := None;
    }

    /** Layer.from_spec_dict, with the loop over the record's entries. */
    static method FromSpecDict(spec: Value) returns (r: Result<Layer>)
      ensures LayerFromSpec(spec).Raise? ==> r == Raise(LayerFromSpec(spec).error)
      ensures LayerFromSpec(spec).Ok? ==> r.Ok? && fresh(r.value) && r.value.Data() == LayerFromSpec(spec).value
    {
      var nameValue := Subscript(spec, "name");
      if nameValue.Raise? {
        return Raise(nameValue.error);
      }
      var l := new Layer(nameValue.value);
      var entries := spec.entries;
      if HasKey(entries, "application") {
        l.application := Lookup(entries, "application");
      }
      for i := 0 to |entries|
        invariant BindKeys(entries[..i]) == Ok(l.keyActions)
        invariant l.name == nameValue.value
        invariant l.application == if HasKey(entries, "application") then Lookup(entries, "application") else Null
        invariant l.encoderIncAction.None? && l.encoderDecAction.None? && l.encoderBtnAction.None?
      {
        var (k, actionSpec) := entries[i];
        BindKeysSnoc(entries, i);
        if k !in Layers.ValidKeyNames {
          continue;
        }
        var a := ParseAction(actionSpec);
        if a.Raise? {
          BindKeysStopsAtFailure(entries, i + 1);
          return Raise(a.error);
        }
        if a.value.None? {
          continue;
        }
        l.keyActions := l.keyActions[k := a.value.value];
      }
      assert entries[..|entries|] == entries;
      return Ok(l);
    }

    /** Layer.get_key_names: one label per valid key, in key order. */
    method GetKeyNames() returns (labels: seq<Option<string>>)
      ensures labels == KeyLabels(Data())
    {
      labels := [];
      for i := 0 to |Layers.ValidKeyNames|
        invariant labels == KeyLabels(Data())[..i]
      {
        var k := Layers.ValidKeyNames[i];
        if k in keyActions {
          labels := labels + [Some(keyActions[k].name)];
        } else {
          labels := labels + [None];
        }
      }
    }

    /** Layer.run_action_for_key */
    method RunActionForKey(key: string) returns (handled: bool, trace: seq<Effect>)
      ensures handled <==> key in keyActions
      ensures handled ==> trace == Exec(keyActions[key])
      ensures !handled ==> trace == []
    {
      if key !in keyActions {
        return false, [];
      }
      trace := RunAction(keyActions[key]);
      handled := true;
    }

    /** Layer.run_action_for_encoder_inc */
    method RunActionForEncoderInc() returns (handled: bool, trace: seq<Effect>)
      ensures (handled, trace) == RunBinding(encoderIncAction)
    {
      handled, trace := RunOptional(encoderIncAction);
    }

    /** Layer.run_action_for_encoder_dec */
    method RunActionForEncoderDec() returns (handled: bool, trace: seq<Effect>)
      ensures (handled, trace) == RunBinding(encoderDecAction)
    {
      handled, trace := RunOptional(encoderDecAction);
    }

    /** Layer.run_action_for_encoder_btn */
    method RunActionForEncoderBtn() returns (handled: bool, trace: seq<Effect>)
      ensures (handled, trace) == RunBinding(encoderBtnAction)
    {
      handled, trace := RunOptional(encoderBtnAction);
    }
  }

  /** Whether an action is bound, and the trace of running it if so. */
  function RunBinding(binding: Option<Action>): (o: (bool, seq<Effect>))
    ensures o.0 <==> binding.Some?
    ensures binding.Some? ==> o.1 == Exec(binding.value)
    ensures binding.None? ==> o.1 == []
  {
    if binding.Some? then (true, Exec(binding.value)) else (false, [])
  }

  /** `if action: action.run(); return True` / `return False`. */
  method RunOptional(binding: Option<Action>) returns (handled: bool, trace: seq<Effect>)
    ensures (handled, trace) == RunBinding(binding)
  {
    if binding.None? {
      return false, [];
    }
    trace := RunAction(binding.value);
    handled := true;
  }

  /** The labels get_key_names reports: the bound action's name, or None. */
  function KeyLabels(d: LayerData): (labels: seq<Option<string>>)
    ensures |labels| == |Layers.ValidKeyNames|
    ensures forall i :: 0 <= i < |labels| ==>
      (labels[i].Some? <==> Layers.ValidKeyNames[i] in d.keyActions)
    ensures forall i :: 0 <= i < |labels| && labels[i].Some? ==>
      labels[i].value == d.keyActions[Layers.ValidKeyNames[i]].name
  {
    seq(|Layers.ValidKeyNames|, i requires 0 <= i < |Layers.ValidKeyNames| =>
      if Layers.ValidKeyNames[i] in d.keyActions then Some(d.keyActions[Layers.ValidKeyNames[i]].name) else None)
  }

  /** The bindings the loop of from_spec_dict has made after the entries
      `entries`: a valid key whose record parses to an action is bound to
      it, one whose record gives None is skipped, and an exception ends
      the loop. */
  function BindKeys(entries: Entries): Result<map<string, Action>>
  {
    if entries == [] then Ok(map[])
    else
      match BindKeys(entries[..|entries| - 1])
      case Raise(e) => Raise(e)
      case Ok(m) =>
        var (k, spec) := entries[|entries| - 1];
        if k !in Layers.ValidKeyNames then Ok(m)
        else match ParseAction(spec)
          case Raise(e) => Raise(e)
          case Ok(None) => Ok(m)
          case Ok(Some(a)) => Ok(m[k := a])
  }

  /** Layer.from_spec_dict: named by `spec['name']`, bound to
      `spec['application']` when present, with the bindings BindKeys
      makes and no encoder bindings. */
  function LayerFromSpec(spec: Value): (r: Result<LayerData>)
    ensures !spec.Dict? ==> r == Raise(TypeError)
    ensures spec.Dict? && !HasKey(spec.entries, "name") ==> r == Raise(KeyError)
    ensures r.Ok? ==> r.value.encoderInc.None? && r.value.encoderDec.None? && r.value.encoderBtn.None?
  {
    match Subscript(spec, "name")
    case Raise(e) => Raise(e)
    case Ok(name) =>
      var application := if HasKey(spec.entries, "application") then Lookup(spec.entries, "application") else Null;
      match BindKeys(spec.entries)
      case Raise(e) => Raise(e)
      case Ok(m) => Ok(LayerData(name, application, m, None, None, None))
  }

  /** One more entry of the loop of from_spec_dict. */
  lemma BindKeysSnoc(entries: Entries, i: nat)
    requires i < |entries|
    ensures BindKeys(entries[..i + 1]) == match BindKeys(entries[..i])
      case Ok(m) =>
        if entries[i].0 !in Layers.ValidKeyNames then Ok(m)
        else (match ParseAction(entries[i].1)
          case Raise(e) => Raise(e)
          case Ok(None) => Ok(m)
          case Ok(Some(a)) => Ok(m[entries[i].0 := a]))
      case failed => failed
  {
    assert entries[..i + 1][..i] == entries[..i];
  }

  lemma {:induction false} BindKeysStopsAtFailure(entries: Entries, i: nat)
    requires i <= |entries| && BindKeys(entries[..i]).Raise?
    ensures BindKeys(entries) == BindKeys(entries[..i])
    decreases |entries| - i
  {
    if i < |entries| {
      assert entries[..i + 1][..i] == entries[..i];
      BindKeysStopsAtFailure(entries, i + 1);
    } else {
      assert entries[..i] == entries;
    }
  }

  /** In a record (whose keys are distinct) that builds, a key is bound
      exactly when it is a valid key name whose record parses to an action,
      and it is bound to that action; every other key is ignored. */
  lemma {:induction false} BindKeysContents(entries: Entries)
    requires UniqueKeys(entries) && BindKeys(entries).Ok?
    ensures forall k :: k in BindKeys(entries).value <==>
      (k in Layers.ValidKeyNames && HasKey(entries, k) && Parsed(ParseAction(Lookup(entries, k))))
    ensures forall k :: k in BindKeys(entries).value ==>
      ParseAction(Lookup(entries, k)) == Ok(Some(BindKeys(entries).value[k]))
  {
    if entries != [] {
      var init := entries[..|entries| - 1];
      var (key, spec) := entries[|entries| - 1];
      assert entries == init + [(key, spec)];
      assert UniqueKeys(init);
      BindKeysContents(init);
      assert !HasKey(init, key);
      var m := BindKeys(init).value;
      var r := BindKeys(entries).value;
      var p := ParseAction(spec);
      assert r == if key in Layers.ValidKeyNames && Parsed(p) then m[key := p.value.value] else m;
      forall k
        ensures k in r <==> (k in Layers.ValidKeyNames && HasKey(entries, k) && Parsed(ParseAction(Lookup(entries, k))))
        ensures k in r ==> ParseAction(Lookup(entries, k)) == Ok(Some(r[k]))
      {
        FindAppended(init, key, spec, k);
        if k == key {
          assert Lookup(entries, k) == spec;
        } else if HasKey(init, k) {
          assert Lookup(entries, k) == Lookup(init, k);
        }
      }
    }
  }

  /** The first `n` valid keys, each bound to the hotkey of its own name. */
  function DefaultBindings(n: nat): map<string, Action>
    requires n <= |Layers.ValidKeyNames|
  {
    map k | k in Layers.ValidKeyNames[..n] :: Hotkey(Str(k), k)
  }

  /** create_default_layer, with its loop over F13..F24. */
  method CreateDefaultLayer() returns (layer: Layer)
    ensures fresh(layer)
    ensures layer.Data() == LayerData(Str("default"), Null, DefaultBindings(|Layers.ValidKeyNames|), None, None, None)
  {
    layer := new Layer(Str("default"));
    for i := 13 to 25
      invariant layer.keyActions == DefaultBindings(i - 13)
      invariant layer.name == Str("default") && layer.application == Null
      invariant layer.encoderIncAction.None? && layer.encoderDecAction.None? && layer.encoderBtnAction.None?
    {
      var keyName := Layers.KeyName(i);
      Layers.KeyNameIsValid(i);
      DefaultBindingsStep(i - 13);
      layer.keyActions := layer.keyActions[keyName := Hotkey(Str(keyName), keyName)];
    }
  }

  lemma DefaultBindingsStep(n: nat)
    requires n < |Layers.ValidKeyNames|
    ensures var k := Layers.ValidKeyNames[n];
      DefaultBindings(n + 1) == DefaultBindings(n)[k := Hotkey(Str(k), k)]
  {
    assert Layers.ValidKeyNames[..n + 1] == Layers.ValidKeyNames[..n] + [Layers.ValidKeyNames[n]];
  }

  /** The default layer binds every valid key and nothing else, each to the
      hotkey of its own name, and so labels every key with its own name. */
  lemma DefaultLayerBindsEveryKey()
    ensures var m := DefaultBindings(|Layers.ValidKeyNames|);
      && (forall k :: k in m <==> k in Layers.ValidKeyNames)
      && (forall k :: k in m ==> m[k] == Hotkey(Str(k), k))
      && KeyLabels(LayerData(Str("default"), Null, m, None, None, None)) ==
           seq(|Layers.ValidKeyNames|, i requires 0 <= i < |Layers.ValidKeyNames| => Some(Layers.ValidKeyNames[i]))
  {
    assert Layers.ValidKeyNames[..|Layers.ValidKeyNames|] == Layers.ValidKeyNames;
  }
}
