/** layer.py: a layer binds actions to the keypad's keys (and, in
    principle, to the encoder), is built from one entry of the layers file,
    and reports the label of every key. A watcher reloads the layers file
    when it changes, at most once per half second. */
module Layers {
  import opened Yaml
  import opened Actions

  /** keys.VALID_KEY_NAMES, the physical keys in logical order: keys.py is
      not part of this model; its twelve names are the function keys
      F13..F24 that the default layer binds. */
  const ValidKeyNames: seq<string> :=
    ["F13", "F14", "F15", "F16", "F17", "F18", "F19", "F20", "F21", "F22", "F23", "F24"]

  /** `f"F{i}"` */
  function KeyName(i: nat): string
  {
    "F" + Decimal(i)
  }

  /** The loop of create_default_layer produces exactly the valid key names. */
  lemma KeyNameIsValid(i: nat)
    requires 13 <= i <= 24
    ensures KeyName(i) == ValidKeyNames[i - 13]
  {
    var tens := if i < 20 then 1 else 2;
    assert i / 10 == tens && i % 10 == i - 10 * tens;
    assert Decimal(tens) == [('0' as int + tens) as char];
    assert Decimal(i) == [('0' as int + tens) as char, ('0' as int + i - 10 * tens) as char];
  }

  /** The state of a Layer object, as a value. */
  datatype LayerData = LayerData(
    name: Value,
    application: Value,
    keyActions: map<string, Action>,
    encoderInc: Option<Action>,
    encoderDec: Option<Action>,
    encoderBtn: Option<Action>)

  /** What running a bound action produced: whether an action was bound,
      and the run (empty when none was). */
  datatype Outcome = Outcome(handled: bool, run: Run)

  /** The outcome of running the action bound in `binding`, if any. */
  function RunBinding(binding: Option<Action>, host: Host): (o: Outcome)
    ensures o.handled <==> binding.Some?
    ensures binding.Some? ==> o.run == Exec(binding.value, host)
    ensures binding.None? ==> o.run == Run([], true)
  {
    if binding.Some? then Outcome(true, Exec(binding.value, host)) else Outcome(false, Run([], true))
  }

  class Layer {
    var name: Value
    /** Assigned once, as the layer is built, and never changed after. */
    const application: Value
    var keyActions: map<string, Action>
    var encoderIncAction: Option<Action>
    var encoderDecAction: Option<Action>
    var encoderBtnAction: Option<Action>

    function Data(): LayerData
      reads this
    {
      LayerData(name, application, keyActions, encoderIncAction, encoderDecAction, encoderBtnAction)
    }

    /** A layer with no bindings: Layer(name), with the application
        from_spec_dict assigns right after construction (`None` otherwise). */
    constructor(name: Value, application: Value)
      ensures Data() == LayerData(name, application, map[], None, None, None)
    {
      this.name := name;
      this.application := application;
      keyActions := map[];
      encoderIncAction := None;
      encoderDecAction := None;
      encoderBtnAction := None;
    }

    /** Layer.from_spec_dict, with the loop over the record's entries. */
    static method FromSpecDict(spec: Value) returns (r: Result<Layer>)
      ensures LayerFromSpec(spec).Raise? ==> r == Raise(LayerFromSpec(spec).error)
      ensures LayerFromSpec(spec).Ok? ==> r.Ok? && fresh(r.value) && r.value.Data() == LayerFromSpec(spec).value
    {
      var nameValue := Subscript(spec, "name");
      if nameValue.Raise? {
        return Raise(nameValue.error);
      }
      var application := if HasKey(spec.entries, "application") then Lookup(spec.entries, "application") else Null;
      var l := new Layer(nameValue.value, application);
      var entries := spec.entries;
      for i := 0 to |entries|
        invariant BindKeys(entries[..i]) == Ok(l.keyActions)
        invariant l.name == nameValue.value
        invariant l.application == if HasKey(entries, "application") then Lookup(entries, "application") else Null
        invariant l.encoderIncAction.None? && l.encoderDecAction.None? && l.encoderBtnAction.None?
      {
        var (k, actionSpec) := entries[i];
        BindKeysSnoc(entries, i);
        if k !in ValidKeyNames {
          continue;
        }
        var a := ParseAction(actionSpec);
        if a.Raise? {
          BindKeysStopsAtFailure(entries, i + 1);
          return Raise(a.error);
        }
        if a.value.None? {
          continue;
        }
        l.keyActions := l.keyActions[k := a.value.value];
      }
      assert entries[..|entries|] == entries;
      return Ok(l);
    }

    /** Layer.get_key_names: one label per valid key, in key order. */
    method GetKeyNames() returns (labels: seq<Value>)
      ensures labels == KeyLabels(Data())
      ensures |labels| == |ValidKeyNames|
      ensures forall i :: 0 <= i < |labels| ==>
        labels[i] == (if ValidKeyNames[i] in keyActions then keyActions[ValidKeyNames[i]].name else Null)
    {
      labels := [];
      for i := 0 to |ValidKeyNames|
        invariant labels == KeyLabels(Data())[..i]
      {
        var k := ValidKeyNames[i];
        if k in keyActions {
          labels := labels + [keyActions[k].name];
        } else {
          labels := labels + [Null];
        }
      }
    }

    /** Layer.run_action_for_key */
    method RunActionForKey(key: string, host: Host) returns (handled: bool, trace: seq<Effect>, completed: bool)
      ensures handled <==> key in keyActions
      ensures handled ==> Run(trace, completed) == Exec(keyActions[key], host)
      ensures !handled ==> trace == [] && completed
    {
      if key !in keyActions {
        return false, [], true;
      }
      trace, completed := RunAction(keyActions[key], host);
      handled := true;
    }

    /** Layer.run_action_for_encoder_inc */
    method RunActionForEncoderInc(host: Host) returns (handled: bool, trace: seq<Effect>, completed: bool)
      ensures Outcome(handled, Run(trace, completed)) == RunBinding(encoderIncAction, host)
    {
      handled, trace, completed := RunOptional(encoderIncAction, host);
    }

    /** Layer.run_action_for_encoder_dec */
    method RunActionForEncoderDec(host: Host) returns (handled: bool, trace: seq<Effect>, completed: bool)
      ensures Outcome(handled, Run(trace, completed)) == RunBinding(encoderDecAction, host)
    {
      handled, trace, completed := RunOptional(encoderDecAction, host);
    }

    /** Layer.run_action_for_encoder_btn */
    method RunActionForEncoderBtn(host: Host) returns (handled: bool, trace: seq<Effect>, completed: bool)
      ensures Outcome(handled, Run(trace, completed)) == RunBinding(encoderBtnAction, host)
    {
      handled, trace, completed := RunOptional(encoderBtnAction, host);
    }
  }

  /** `if action: action.run(); return True` / `return False` (an action
      object is always true). */
  method RunOptional(binding: Option<Action>, host: Host) returns (handled: bool, trace: seq<Effect>, completed: bool)
    ensures Outcome(handled, Run(trace, completed)) == RunBinding(binding, host)
  {
    if binding.None? {
      return false, [], true;
    }
    trace, completed := RunAction(binding.value, host);
    handled := true;
  }

  /** The labels get_key_names reports for a layer. */
  function KeyLabels(d: LayerData): seq<Value>
  {
    seq(|ValidKeyNames|, i requires 0 <= i < |ValidKeyNames| =>
      if ValidKeyNames[i] in d.keyActions then d.keyActions[ValidKeyNames[i]].name else Null)
  }

  // ---------------------------------------------------------------------
  // Building a layer from its record
  // ---------------------------------------------------------------------

  /** The bindings the loop of from_spec_dict has made after the entries
      `entries`: a valid key whose record parses to an action is bound to
      it (a later entry for the same key replaces it), one whose record is
      not a mapping is skipped, and an exception ends the loop. */
  function BindKeys(entries: Entries): Result<map<string, Action>>
  {
    if entries == [] then Ok(map[])
    else
      match BindKeys(entries[..|entries| - 1])
      case Raise(e) => Raise(e)
      case Ok(m) =>
        var (k, spec) := entries[|entries| - 1];
        if k !in ValidKeyNames then Ok(m)
        else match ParseAction(spec)
          case Raise(e) => Raise(e)
          case Ok(None) => Ok(m)
          case Ok(Some(a)) => Ok(m[k := a])
  }

  /** Layer.from_spec_dict: the layer is named by `spec['name']`, bound to
      `spec['application']` when that key is present, and its encoder
      bindings are never set. */
  function LayerFromSpec(spec: Value): Result<LayerData>
  {
    match Subscript(spec, "name")
    case Raise(e) => Raise(e)
    case Ok(name) =>
      var application := if HasKey(spec.entries, "application") then Lookup(spec.entries, "application") else Null;
      match BindKeys(spec.entries)
      case Raise(e) => Raise(e)
      case Ok(m) => Ok(LayerData(name, application, m, None, None, None))
  }

  /** What Layer.from_spec_dict promises: a record that is not a mapping
      raises TypeError, one without a name KeyError, and an exception from
      parsing a binding propagates; otherwise the layer is named by
      `spec['name']`, bound to `spec['application']` exactly when that key
      is present (None otherwise), holds the bindings BindKeys makes, and
      has no encoder bindings. */
  lemma LayerFromSpecMeaning(spec: Value)
    ensures var r := LayerFromSpec(spec);
      && (!spec.Dict? ==> r == Raise(TypeError))
      && (spec.Dict? && !HasKey(spec.entries, "name") ==> r == Raise(KeyError))
      && (spec.Dict? && HasKey(spec.entries, "name") ==> (r.Ok? <==> BindKeys(spec.entries).Ok?))
      && (r.Raise? && spec.Dict? && HasKey(spec.entries, "name") ==> r.error == BindKeys(spec.entries).error)
      && (r.Ok? ==>
        && spec.Dict? && HasKey(spec.entries, "name")
        && r.value.name == Lookup(spec.entries, "name")
        && (HasKey(spec.entries, "application") ==> r.value.application == Lookup(spec.entries, "application"))
        && (!HasKey(spec.entries, "application") ==> r.value.application == Null)
        && Ok(r.value.keyActions) == BindKeys(spec.entries)
        && r.value.encoderInc.None? && r.value.encoderDec.None? && r.value.encoderBtn.None?)
  {
  }

  /** One more entry of the loop of from_spec_dict. */
  lemma BindKeysSnoc(entries: Entries, i: nat)
    requires i < |entries|
    ensures BindKeys(entries[..i + 1]) == match BindKeys(entries[..i])
      case Ok(m) =>
        if entries[i].0 !in ValidKeyNames then Ok(m)
        else (match ParseAction(entries[i].1)
          case Raise(e) => Raise(e)
          case Ok(None) => Ok(m)
          case Ok(Some(a)) => Ok(m[entries[i].0 := a]))
      case failed => failed
  {
    assert entries[..i + 1][..i] == entries[..i];
  }

  /** Once the loop of from_spec_dict has raised, the later entries do not
      matter. */
  lemma {:induction false} BindKeysStopsAtFailure(entries: Entries, i: nat)
    requires i <= |entries| && BindKeys(entries[..i]).Raise?
    ensures BindKeys(entries) == BindKeys(entries[..i])
    decreases |entries| - i
  {
    if i < |entries| {
      assert entries[..i + 1][..i] == entries[..i];
      BindKeysStopsAtFailure(entries, i + 1);
    } else {
      assert entries[..i] == entries;
    }
  }

  /** The layer is built exactly when no valid key's record raises in
      parse_action; records under other keys are never parsed. */
  lemma {:induction false} BindKeysSucceeds(entries: Entries)
    ensures BindKeys(entries).Ok? <==>
      forall i :: 0 <= i < |entries| && entries[i].0 in ValidKeyNames ==> ParseAction(entries[i].1).Ok?
  {
    if entries != [] {
      var init := entries[..|entries| - 1];
      BindKeysSucceeds(init);
      assert forall i :: 0 <= i < |init| ==> init[i] == entries[i];
    }
  }

  /** In a record (whose keys are distinct), a key is bound exactly when it
      is a valid key name whose record parses to an action, and it is bound
      to that action; all other keys are ignored. */
  lemma {:induction false} BindKeysContents(entries: Entries)
    requires UniqueKeys(entries) && BindKeys(entries).Ok?
    ensures forall k :: k in BindKeys(entries).value <==>
      (k in ValidKeyNames && HasKey(entries, k) && ParseAction(Lookup(entries, k)).Ok? &&
       ParseAction(Lookup(entries, k)).value.Some?)
    ensures forall k :: k in BindKeys(entries).value ==>
      ParseAction(Lookup(entries, k)) == Ok(Some(BindKeys(entries).value[k]))
  {
    if entries != [] {
      var init := entries[..|entries| - 1];
      var (key, spec) := entries[|entries| - 1];
      assert entries == init + [(key, spec)];
      assert UniqueKeys(init);
      BindKeysContents(init);
      assert !HasKey(init, key);
      var m := BindKeys(init).value;
      var r := BindKeys(entries).value;
      var p := ParseAction(spec);
      assert r == if key in ValidKeyNames && p.value.Some? then m[key := p.value.value] else m;
      forall k
        ensures k in r <==>
          (k in ValidKeyNames && HasKey(entries, k) && ParseAction(Lookup(entries, k)).Ok? &&
           ParseAction(Lookup(entries, k)).value.Some?)
        ensures k in r ==> ParseAction(Lookup(entries, k)) == Ok(Some(r[k]))
      {
        FindAppended(init, key, spec, k);
        if k == key {
          assert Lookup(entries, k) == spec;
        } else if HasKey(init, k) {
          assert Lookup(entries, k) == Lookup(init, k);
        }
      }
    }
  }

  // ---------------------------------------------------------------------
  // The default layer
  // ---------------------------------------------------------------------

  /** The first `n` valid keys, each bound to the hotkey of its own name. */
  function DefaultBindings(n: nat): map<string, Action>
    requires n <= |ValidKeyNames|
  {
    map k | k in ValidKeyNames[..n] :: Hotkey(Str(k), Str(k))
  }

  /** create_default_layer, as a value. */
  function DefaultLayer(): LayerData
  {
    LayerData(Str("default"), Null, DefaultBindings(|ValidKeyNames|), None, None, None)
  }

  /** create_default_layer, with its loop over F13..F24. */
  method CreateDefaultLayer() returns (layer: Layer)
    ensures fresh(layer) && layer.Data() == DefaultLayer()
  {
    layer := new Layer(Str("default"), Null);
    for i := 13 to 25
      invariant layer.keyActions == DefaultBindings(i - 13)
      invariant layer.name == Str("default") && layer.application == Null
      invariant layer.encoderIncAction.None? && layer.encoderDecAction.None? && layer.encoderBtnAction.None?
    {
      var keyName := KeyName(i);
      KeyNameIsValid(i);
      DefaultBindingsStep(i - 13);
      layer.keyActions := layer.keyActions[keyName := Hotkey(Str(keyName), Str(keyName))];
    }
  }

  lemma DefaultBindingsStep(n: nat)
    requires n < |ValidKeyNames|
    ensures var k := ValidKeyNames[n];
      DefaultBindings(n + 1) == DefaultBindings(n)[k := Hotkey(Str(k), Str(k))]
  {
    assert ValidKeyNames[..n + 1] == ValidKeyNames[..n] + [ValidKeyNames[n]];
  }

  /** The default layer is named "default", has no application and no
      encoder bindings, binds every valid key and nothing else, each to the
      hotkey of its own name, and so labels every key with its own name. */
  lemma DefaultLayerBindsEveryKey()
    ensures DefaultLayer().name == Str("default") && DefaultLayer().application == Null
    ensures DefaultLayer().encoderInc.None? && DefaultLayer().encoderDec.None? && DefaultLayer().encoderBtn.None?
    ensures forall k :: k in DefaultLayer().keyActions <==> k in ValidKeyNames
    ensures forall k :: k in DefaultLayer().keyActions ==> DefaultLayer().keyActions[k] == Hotkey(Str(k), Str(k))
    ensures KeyLabels(DefaultLayer()) == seq(|ValidKeyNames|, i requires 0 <= i < |ValidKeyNames| => Str(ValidKeyNames[i]))
  {
    assert ValidKeyNames[..|ValidKeyNames|] == ValidKeyNames;
  }

  // ---------------------------------------------------------------------
  // The layers file
  // ---------------------------------------------------------------------

  /** parse_layers' result: layer key → Layer, in file order. */
  type LayerTable = seq<(string, Layer)>

  /** The layer objects a table holds. */
  function TableLayers(t: LayerTable): set<Layer>
  {
    set i | 0 <= i < |t| :: t[i].1
  }

  /** The state of every layer of a table. */
  function TableData(t: LayerTable): seq<(string, LayerData)>
    reads TableLayers(t)
  {
    seq(|t|, i requires 0 <= i < |t| reads TableLayers(t) => (t[i].0, t[i].1.Data()))
  }

  /** parse_layers, as values: the file's top level must be a mapping (any
      other document has no `.items()`), and every entry is a layer. */
  function TableFromSpec(content: Value): Result<seq<(string, LayerData)>>
  {
    if !content.Dict? then Raise(AttributeError) else LayersFromEntries(content.entries)
  }

  /** The table parse_layers builds from the document's entries. */
  function LayersFromEntries(entries: Entries): Result<seq<(string, LayerData)>>
  {
    Tabulate(entries, BuildEach(entries))
  }

  /** Every entry's layer, built on its own. */
  function BuildEach(entries: Entries): (built: seq<Result<LayerData>>)
    ensures |built| == |entries|
    ensures forall i :: 0 <= i < |entries| ==> built[i] == LayerFromSpec(entries[i].1)
  {
    seq(|entries|, i requires 0 <= i < |entries| => LayerFromSpec(entries[i].1))
  }

  /** The table the loop of parse_layers has built after `entries`, whose
      layers (or exceptions) are `built`: each layer is assigned under its
      key, and an exception ends the loop. */
  function Tabulate(entries: Entries, built: seq<Result<LayerData>>): Result<seq<(string, LayerData)>>
    requires |built| == |entries|
  {
    if entries == [] then Ok([])
    else
      var n := |entries| - 1;
      match Tabulate(entries[..n], built[..n])
      case Raise(e) => Raise(e)
      case Ok(t) =>
        match built[n]
        case Raise(e) => Raise(e)
        case Ok(l) => Ok(Assign(t, entries[n].0, l))
  }

  /** One turn of the loop of parse_layers. */
  lemma TabulateSnoc(entries: Entries, built: seq<Result<LayerData>>, i: nat)
    requires |built| == |entries| && i < |entries|
    ensures Tabulate(entries[..i + 1], built[..i + 1]) ==
      match Tabulate(entries[..i], built[..i])
      case Raise(e) => Raise(e)
      case Ok(t) =>
        match built[i]
        case Raise(e) => Raise(e)
        case Ok(l) => Ok(Assign(t, entries[i].0, l))
  {
    assert entries[..i + 1][..i] == entries[..i];
    assert built[..i + 1][..i] == built[..i];
  }

  /** A turn of the loop of parse_layers that builds a layer assigns it. */
  lemma TabulateGrows(entries: Entries, built: seq<Result<LayerData>>, i: nat, t: seq<(string, LayerData)>)
    requires |built| == |entries| && i < |entries| && built[i].Ok?
    requires Tabulate(entries[..i], built[..i]) == Ok(t)
    ensures Tabulate(entries[..i + 1], built[..i + 1]) == Ok(Assign(t, entries[i].0, built[i].value))
  {
    TabulateSnoc(entries, built, i);
  }

  /** A turn of the loop of parse_layers that raises ends it with that exception. */
  lemma TabulateFails(entries: Entries, built: seq<Result<LayerData>>, i: nat)
    requires |built| == |entries| && i < |entries| && built[i].Raise?
    requires Tabulate(entries[..i], built[..i]).Ok?
    ensures Tabulate(entries, built) == Raise(built[i].error)
  {
    TabulateSnoc(entries, built, i);
    TabulateStopsAtFailure(entries, built, i + 1);
  }

  lemma {:induction false} TabulateStopsAtFailure(entries: Entries, built: seq<Result<LayerData>>, i: nat)
    requires |built| == |entries| && i <= |entries| && Tabulate(entries[..i], built[..i]).Raise?
    ensures Tabulate(entries, built) == Tabulate(entries[..i], built[..i])
    decreases |entries| - i
  {
    if i < |entries| {
      TabulateSnoc(entries, built, i);
      TabulateStopsAtFailure(entries, built, i + 1);
    } else {
      assert entries[..i] == entries && built[..i] == built;
    }
  }

  lemma {:induction false} TabulateSucceeds(entries: Entries, built: seq<Result<LayerData>>)
    requires |built| == |entries|
    ensures Tabulate(entries, built).Ok? <==> forall i :: 0 <= i < |built| ==> built[i].Ok?
  {
    if entries != [] {
      var n := |entries| - 1;
      TabulateSucceeds(entries[..n], built[..n]);
      if Tabulate(entries, built).Ok? {
        forall i | 0 <= i < |built| ensures built[i].Ok? {
          if i < n {
            assert built[..n][i] == built[i];
          }
        }
      } else if Tabulate(entries[..n], built[..n]).Ok? {
        assert !built[n].Ok?;
      } else {
        var i :| 0 <= i < n && !built[..n][i].Ok?;
        assert built[..n][i] == built[i];
      }
    }
  }

  lemma {:induction false} TabulateInOrder(entries: Entries, built: seq<Result<LayerData>>)
    requires |built| == |entries| && UniqueKeys(entries) && Tabulate(entries, built).Ok?
    ensures var t := Tabulate(entries, built).value;
      && |t| == |entries|
      && forall i :: 0 <= i < |t| ==> t[i].0 == entries[i].0 && Ok(t[i].1) == built[i]
  {
    if entries != [] {
      var n := |entries| - 1;
      var init := entries[..n];
      forall i, j | 0 <= i < j < n ensures init[i].0 != init[j].0 {
        assert init[i] == entries[i] && init[j] == entries[j];
      }
      TabulateInOrder(init, built[..n]);
      var t := Tabulate(init, built[..n]).value;
      var k := entries[n].0;
      forall j | 0 <= j < |t| ensures t[j].0 != k {
        assert t[j].0 == entries[j].0;
      }
      var r := t + [(k, built[n].value)];
      assert Tabulate(entries, built) == Ok(r);
      forall i | 0 <= i < |r| ensures r[i].0 == entries[i].0 && Ok(r[i].1) == built[i] {
        if i < n {
          assert r[i] == t[i] && init[i] == entries[i] && built[..n][i] == built[i];
        }
      }
    }
  }

  /** Loading the file fails exactly when one of its entries is not a
      layer record. */
  lemma LayersFromEntriesSucceeds(entries: Entries)
    ensures LayersFromEntries(entries).Ok? <==> forall i :: 0 <= i < |entries| ==> LayerFromSpec(entries[i].1).Ok?
  {
    TabulateSucceeds(entries, BuildEach(entries));
  }

  /** A file of distinct layer keys gives one layer per key, in file order,
      each built from its own entry. */
  lemma LayersFromEntriesInOrder(entries: Entries)
    requires UniqueKeys(entries) && LayersFromEntries(entries).Ok?
    ensures var t := LayersFromEntries(entries).value;
      && |t| == |entries|
      && forall i :: 0 <= i < |t| ==> t[i].0 == entries[i].0 && Ok(t[i].1) == LayerFromSpec(entries[i].1)
  {
    TabulateInOrder(entries, BuildEach(entries));
  }

  /** parse_layers on the already-loaded document: the document must be a
      mapping. */
  method ParseLayers(content: Value) returns (r: Result<LayerTable>)
    ensures TableFromSpec(content).Raise? ==> r == Raise(TableFromSpec(content).error)
    ensures TableFromSpec(content).Ok? ==>
      && r.Ok?
      && (forall l :: l in TableLayers(r.value) ==> fresh(l))
      && TableData(r.value) == TableFromSpec(content).value
  {
    if !content.Dict? {
      return Raise(AttributeError);
    }
    r := LayersFromItems(content.entries);
  }

  /** The loop of parse_layers over the document's items. */
  method LayersFromItems(entries: Entries) returns (r: Result<LayerTable>)
    ensures LayersFromEntries(entries).Raise? ==> r == Raise(LayersFromEntries(entries).error)
    ensures LayersFromEntries(entries).Ok? ==>
      && r.Ok?
      && (forall l :: l in TableLayers(r.value) ==> fresh(l))
      && TableData(r.value) == LayersFromEntries(entries).value
  {
    ghost var built := BuildEach(entries);
    var layers: LayerTable := [];
    assert TableData(layers) == [];
    for i := 0 to |entries|
      invariant Tabulate(entries[..i], built[..i]) == Ok(TableData(layers))
      invariant forall l :: l in TableLayers(layers) ==> fresh(l)
    {
      var (layerKey, layerSpec) := entries[i];
      ghost var before := TableData(layers);
      var l := Layer.FromSpecDict(layerSpec);
      assert TableData(layers) == before;
      if l.Raise? {
        assert built[i] == Raise(l.error);
        TabulateFails(entries, built, i);
        return Raise(l.error);
      }
      assert built[i] == Ok(l.value.Data());
      TabulateGrows(entries, built, i, before);
      AssignData(layers, layerKey, l.value);
      layers := Assign(layers, layerKey, l.value);
    }
    assert entries[..|entries|] == entries && built[..|entries|] == built;
    return Ok(layers);
  }

  /** Assigning a layer in a table assigns its state in the table's data. */
  lemma AssignData(t: LayerTable, key: string, l: Layer)
    ensures TableLayers(Assign(t, key, l)) <= TableLayers(t) + {l}
    ensures TableData(Assign(t, key, l)) == Assign(TableData(t), key, l.Data())
  {
    var d := TableData(t);
    FindSameKeys(t, d, key);
    match Find(t, key)
    case Some(i) =>
      assert Assign(t, key, l) == t[i := (key, l)];
      assert Assign(d, key, l.Data()) == d[i := (key, l.Data())];
    case None =>
      assert Assign(t, key, l) == t + [(key, l)];
      assert Assign(d, key, l.Data()) == d + [(key, l.Data())];
  }

  // ---------------------------------------------------------------------
  // Reloading the layers file
  // ---------------------------------------------------------------------

  /** Events closer than this to the last accepted one are ignored. */
  const DebounceMs := 500

  /** Whether the debounce lets an event at `nowMs` through. */
  predicate Accepts(lastTriggerMs: int, nowMs: int)
  {
    nowMs - lastTriggerMs >= DebounceMs
  }

  /** The events of a timeline the debounce lets through, starting from the
      trigger time `lastTriggerMs`. */
  function Accepted(lastTriggerMs: int, times: seq<int>): seq<int>
    decreases |times|
  {
    if times == [] then []
    else if Accepts(lastTriggerMs, times[0]) then [times[0]] + Accepted(times[0], times[1..])
    else Accepted(lastTriggerMs, times[1..])
  }

  /** Every accepted event comes at least half a second after the previous
      accepted one (and after the starting trigger time): a burst of saves
      reloads the file once. */
  lemma {:induction false} AcceptedAreSpaced(lastTriggerMs: int, times: seq<int>)
    ensures var acc := Accepted(lastTriggerMs, times);
      && (acc != [] ==> acc[0] - lastTriggerMs >= DebounceMs)
      && forall i :: 0 < i < |acc| ==> acc[i] - acc[i - 1] >= DebounceMs
    decreases |times|
  {
    if times != [] {
      if Accepts(lastTriggerMs, times[0]) {
        AcceptedAreSpaced(times[0], times[1..]);
      } else {
        AcceptedAreSpaced(lastTriggerMs, times[1..]);
      }
    }
  }

  /** The trigger time after the timeline `times`: the last accepted event,
      or `lastTriggerMs` when none was accepted. */
  function LastTrigger(lastTriggerMs: int, times: seq<int>): int
    decreases |times|
  {
    if times == [] then lastTriggerMs
    else if Accepts(lastTriggerMs, times[0]) then LastTrigger(times[0], times[1..])
    else LastTrigger(lastTriggerMs, times[1..])
  }

  /** Each further event is kept exactly when it comes at least half a
      second after the last accepted one, and dropped otherwise. */
  lemma {:induction false} AcceptedKeepsSpacedEvents(lastTriggerMs: int, times: seq<int>, t: int)
    ensures Accepted(lastTriggerMs, times + [t]) ==
      Accepted(lastTriggerMs, times) + (if Accepts(LastTrigger(lastTriggerMs, times), t) then [t] else [])
    decreases |times|
  {
    if times != [] {
      assert (times + [t])[0] == times[0];
      assert (times + [t])[1..] == times[1..] + [t];
      if Accepts(lastTriggerMs, times[0]) {
        AcceptedKeepsSpacedEvents(times[0], times[1..], t);
      } else {
        AcceptedKeepsSpacedEvents(lastTriggerMs, times[1..], t);
      }
    }
  }

  /** LayerFileWatcher._Handler */
  class LayerFileHandler {
    var lastTriggerTimeMs: int

    constructor()
      ensures lastTriggerTimeMs == 0
    {
      lastTriggerTimeMs := 0;
    }

    /** on_modified for an event at `nowMs`, given what loading the file
        yields: an accepted event moves the trigger time to `nowMs` before
        the file is parsed, and hands the new table to the callback (the
        result) only when parsing succeeds; a failure is logged and
        swallowed. */
    method OnModified(nowMs: int, loaded: Result<Value>) returns (newLayers: Option<LayerTable>)
      modifies this
      ensures Accepts(old(lastTriggerTimeMs), nowMs) ==> lastTriggerTimeMs == nowMs
      ensures !Accepts(old(lastTriggerTimeMs), nowMs) ==> lastTriggerTimeMs == old(lastTriggerTimeMs)
      ensures newLayers.Some? <==>
        Accepts(old(lastTriggerTimeMs), nowMs) && loaded.Ok? && TableFromSpec(loaded.value).Ok?
      ensures newLayers.Some? ==>
        && (forall l :: l in TableLayers(newLayers.value) ==> fresh(l))
        && TableData(newLayers.value) == TableFromSpec(loaded.value).value
    {
      if !Accepts(lastTriggerTimeMs, nowMs) {
        return None;
      }
      lastTriggerTimeMs := nowMs;
      if loaded.Raise? {
        return None;
      }
      var parsed := ParseLayers(loaded.value);
      if parsed.Raise? {
        return None;
      }
      return Some(parsed.value);
    }
  }
}
