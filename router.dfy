/** main.py, class Macropadd: the stack of active layers, the dispatch of
    key and encoder events down that stack, the reaction to a change of the
    focused program, and the profile update sent to the keypad's display. */
module Router {
  import opened Yaml
  import opened Actions
  import opened Layers
  import opened DeviceBridge

  /** An input event the router dispatches. */
  datatype Event = KeyPress(key: string) | EncoderInc | EncoderDec | EncoderBtn

  /** The action a layer binds to an event, if any. */
  function Binding(d: LayerData, ev: Event): Option<Action>
  {
    match ev
    case KeyPress(k) => if k in d.keyActions then Some(d.keyActions[k]) else None
    case EncoderInc => d.encoderInc
    case EncoderDec => d.encoderDec
    case EncoderBtn => d.encoderBtn
  }

  /** The state of every layer of a stack, bottom first. */
  function StackData(stack: seq<Layer>): (r: seq<LayerData>)
    reads stack
    ensures |r| == |stack| && forall i :: 0 <= i < |stack| ==> r[i] == stack[i].Data()
  {
    seq(|stack|, i requires 0 <= i < |stack| reads stack => stack[i].Data())
  }

  // ---------------------------------------------------------------------
  // Dispatch
  // ---------------------------------------------------------------------

  /** The position of the topmost layer that binds `ev`: every layer above
      it binds nothing for `ev`; none at all when no layer binds it. */
  function Resolve(stack: seq<LayerData>, ev: Event): (r: Option<nat>)
    ensures r.Some? ==> r.value < |stack| && Binding(stack[r.value], ev).Some?
    ensures r.Some? ==> forall j :: r.value < j < |stack| ==> Binding(stack[j], ev).None?
    ensures r.None? <==> forall j :: 0 <= j < |stack| ==> Binding(stack[j], ev).None?
  {
    if stack == [] then None
    else if Binding(stack[|stack| - 1], ev).Some? then Some(|stack| - 1)
    else Resolve(stack[..|stack| - 1], ev)
  }

  /** The outcome of an event: the topmost binding runs and the search
      stops; with no binding nothing runs (the event is logged as
      unhandled). */
  function Dispatch(stack: seq<LayerData>, ev: Event, host: Host): Outcome
  {
    match Resolve(stack, ev)
    case None => Outcome(false, Run([], true))
    case Some(i) => RunBinding(Binding(stack[i], ev), host)
  }

  /** Exactly one action runs for an event some layer binds, the one of the
      topmost such layer; lower bindings are shadowed whatever they are. */
  lemma TopmostBindingWins(stack: seq<LayerData>, ev: Event, host: Host, i: nat)
    requires i < |stack| && Binding(stack[i], ev).Some?
    requires forall j :: i < j < |stack| ==> Binding(stack[j], ev).None?
    ensures Dispatch(stack, ev, host) == Outcome(true, Exec(Binding(stack[i], ev).value, host))
  {
  }

  /** An event no layer binds runs nothing. */
  lemma UnboundEventRunsNothing(stack: seq<LayerData>, ev: Event, host: Host)
    requires forall j :: 0 <= j < |stack| ==> Binding(stack[j], ev).None?
    ensures Dispatch(stack, ev, host) == Outcome(false, Run([], true))
  {
  }

  lemma ResolveStep(stack: seq<LayerData>, i: nat, ev: Event)
    requires i < |stack|
    ensures Resolve(stack[..i + 1], ev) ==
      if Binding(stack[i], ev).Some? then Some(i) else Resolve(stack[..i], ev)
  {
    assert stack[..i + 1][..i] == stack[..i];
  }

  /** Asking one layer to handle an event (`l.run_action_for_…()`). */
  method RunLayerFor(l: Layer, ev: Event, host: Host) returns (handled: bool, trace: seq<Effect>, completed: bool)
    ensures Outcome(handled, Run(trace, completed)) == RunBinding(Binding(l.Data(), ev), host)
  {
    match ev
    case KeyPress(k) =>
      handled, trace, completed := l.RunActionForKey(k, host);
    case EncoderInc =>
      handled, trace, completed := l.RunActionForEncoderInc(host);
    case EncoderDec =>
      handled, trace, completed := l.RunActionForEncoderDec(host);
    case EncoderBtn =>
      handled, trace, completed := l.RunActionForEncoderBtn(host);
  }

  /** The top-down search the four handlers share, over a copy of the
      stack. */
  method DispatchDown(layers: seq<Layer>, ev: Event, host: Host) returns (handled: bool, trace: seq<Effect>, completed: bool)
    ensures Outcome(handled, Run(trace, completed)) == Dispatch(StackData(layers), ev, host)
  {
    ghost var data := StackData(layers);
    assert data[..|layers|] == data;
    var i := |layers|;
    while i > 0
      invariant 0 <= i <= |layers|
      invariant Resolve(data, ev) == Resolve(data[..i], ev)
    {
      i := i - 1;
      ResolveStep(data, i, ev);
      handled, trace, completed := RunLayerFor(layers[i], ev, host);
      if handled {
        assert Resolve(data, ev) == Some(i);
        return;
      }
    }
    assert Resolve(data, ev) == None;
    return false, [], true;
  }

  // ---------------------------------------------------------------------
  // Focus changes
  // ---------------------------------------------------------------------

  predicate IsSeparator(c: char)
  {
    c == '/' || c == '\\'
  }

  /** The last component of a path that has no drive prefix. */
  function LastComponent(p: string): string
  {
    if p == [] || IsSeparator(p[|p| - 1]) then []
    else LastComponent(p[..|p| - 1]) + [p[|p| - 1]]
  }

  /** The last component is the longest suffix without a separator: it is
      the whole path or follows a separator. */
  lemma {:induction false} LastComponentMeaning(p: string)
    ensures var r := LastComponent(p);
      && |r| <= |p| && r == p[|p| - |r|..]
      && (forall i :: 0 <= i < |r| ==> !IsSeparator(r[i]))
      && (|r| < |p| ==> IsSeparator(p[|p| - |r| - 1]))
  {
    if p != [] && !IsSeparator(p[|p| - 1]) {
      LastComponentMeaning(p[..|p| - 1]);
    }
  }

  /** `os.path.basename` on Windows: the part after the last `/` or `\`,
      once a drive prefix is removed. As in CPython 3.11's
      `ntpath.splitdrive`, a path whose second character is `:` starts with
      a two-character drive, whatever its first character is. */
  function Basename(path: string): string
  {
    var rest := if |path| >= 2 && path[1] == ':' then path[2..] else path;
    LastComponent(rest)
  }

  /** The name of a program is what follows the last separator of its path.
      The one exception is a path made of a single separator and a name
      starting with `:`: its first two characters read as a drive, so the
      name loses that `:`. */
  lemma BasenameOfJoin(dir: string, sep: char, name: string)
    requires IsSeparator(sep) && forall i :: 0 <= i < |name| ==> !IsSeparator(name[i])
    ensures Basename(dir + [sep] + name) ==
      if dir == [] && name != [] && name[0] == ':' then name[1..] else name
  {
    var path := dir + [sep] + name;
    if dir == [] && name != [] && name[0] == ':' {
      assert path[2..] == name[1..];
      LastComponentMeaning(name[1..]);
    } else if |path| >= 2 && path[1] == ':' {
      assert |dir| >= 2;
      assert path[2..] == dir[2..] + [sep] + name;
      LastComponentAfterSeparator(dir[2..], sep, name);
    } else {
      LastComponentAfterSeparator(dir, sep, name);
    }
  }

  lemma {:induction false} LastComponentAfterSeparator(dir: string, sep: char, name: string)
    requires IsSeparator(sep) && forall i :: 0 <= i < |name| ==> !IsSeparator(name[i])
    ensures LastComponent(dir + [sep] + name) == name
  {
    var p := dir + [sep] + name;
    if name == [] {
      assert p[|p| - 1] == sep;
    } else {
      var init := name[..|name| - 1];
      LastComponentAfterSeparator(dir, sep, init);
      assert p[..|p| - 1] == dir + [sep] + init;
      assert init + [name[|name| - 1]] == name;
    }
  }

  /** The stack once the pop loop is done: popped down to the base layer
      (compared by identity), or empty when the base layer is not on it. */
  function PopToBase(stack: seq<Layer>, base: Layer): (r: seq<Layer>)
    ensures |r| <= |stack| && r == stack[..|r|]
    ensures r != [] ==> r[|r| - 1] == base
    ensures forall j :: |r| <= j < |stack| ==> stack[j] != base
  {
    if stack == [] || stack[|stack| - 1] == base then stack
    else PopToBase(stack[..|stack| - 1], base)
  }

  /** The first layer of the table, in insertion order, bound to `process`. */
  function FirstForApplication(table: LayerTable, process: string): (r: Option<nat>)
    ensures r.Some? ==> r.value < |table| && table[r.value].1.application == Str(process)
    ensures r.Some? ==> forall j :: 0 <= j < r.value ==> table[j].1.application != Str(process)
    ensures r.None? <==> forall j :: 0 <= j < |table| ==> table[j].1.application != Str(process)
  {
    if table == [] then None
    else if table[0].1.application == Str(process) then Some(0)
    else match FirstForApplication(table[1..], process)
      case None => None
      case Some(i) => Some(i + 1)
  }

  /** What the pop loop of handle_process_change leaves of the stack. */
  function Popped(stack: seq<Layer>, table: LayerTable): seq<Layer>
  {
    if HasKey(table, "base") then PopToBase(stack, Lookup(table, "base")) else stack
  }

  /** The pop loop only cuts the stack down, and only when the table has a
      base layer; it then stops at the topmost occurrence of the base
      layer, and empties a stack the base layer is not on. */
  lemma PoppedMeaning(stack: seq<Layer>, table: LayerTable)
    ensures var r := Popped(stack, table);
      && |r| <= |stack| && r == stack[..|r|]
      && (!HasKey(table, "base") ==> r == stack)
      && (HasKey(table, "base") && Lookup(table, "base") in stack ==> r != [] && r[|r| - 1] == Lookup(table, "base"))
      && (HasKey(table, "base") && Lookup(table, "base") !in stack ==> r == [])
      && (HasKey(table, "base") ==> forall j :: |r| <= j < |stack| ==> stack[j] != Lookup(table, "base"))
  {
    if HasKey(table, "base") {
      var base := Lookup(table, "base");
      var r := PopToBase(stack, base);
      if base in stack {
        PopToBaseStopsAtBase(stack, base);
      } else if r != [] {
        assert r[|r| - 1] == stack[|r| - 1];
      }
    }
  }

  /** The stack handle_process_change leaves: the popped stack, with the
      layer found for the focused program, if any, pushed on top. */
  function Focused(stack: seq<Layer>, table: LayerTable, found: Option<nat>): seq<Layer>
    requires found.Some? ==> found.value < |table|
  {
    if found.Some? then Popped(stack, table) + [table[found.value].1] else Popped(stack, table)
  }

  /** The stack handle_process_change leaves for the program at `path`. */
  function FocusStack(stack: seq<Layer>, table: LayerTable, path: string): seq<Layer>
  {
    Focused(stack, table, FirstForApplication(table, Basename(path)))
  }

  /** The pop loop never empties a stack the base layer is on. */
  lemma {:induction false} PopToBaseStopsAtBase(stack: seq<Layer>, base: Layer)
    requires base in stack
    ensures PopToBase(stack, base) != []
  {
    if stack[|stack| - 1] != base {
      var j :| 0 <= j < |stack| && stack[j] == base;
      assert stack[..|stack| - 1][j] == base;
      PopToBaseStopsAtBase(stack[..|stack| - 1], base);
    }
  }

  // ---------------------------------------------------------------------
  // Label overlay and the profile update
  // ---------------------------------------------------------------------

  /** The labels of `above` where it has one, those of `below` elsewhere. */
  function OverlayOnto(below: seq<Value>, above: seq<Value>): (r: seq<Value>)
    requires |below| == |above|
    ensures |r| == |below|
  {
    seq(|below|, i requires 0 <= i < |below| => if above[i] != Null then above[i] else below[i])
  }

  /** Label lists of one length. */
  predicate SameLength(lists: seq<seq<Value>>)
  {
    lists != [] && forall i :: 0 <= i < |lists| ==> |lists[i]| == |lists[0]|
  }

  /** The labels of a stack: those of its bottom layer, overlaid by each
      layer above it in turn. */
  function Overlay(lists: seq<seq<Value>>): (r: seq<Value>)
    requires SameLength(lists)
    ensures |r| == |lists[0]|
  {
    if |lists| == 1 then lists[0]
    else OverlayOnto(Overlay(lists[..|lists| - 1]), lists[|lists| - 1])
  }

  /** Per key, the overlay shows the label of the topmost layer that has
      one. */
  lemma {:induction false} OverlayTopmost(lists: seq<seq<Value>>, k: nat, j: nat)
    requires SameLength(lists) && k < |lists[0]| && j < |lists|
    requires lists[j][k] != Null && forall j' :: j < j' < |lists| ==> lists[j'][k] == Null
    ensures Overlay(lists)[k] == lists[j][k]
  {
    if |lists| > 1 {
      var init := lists[..|lists| - 1];
      assert SameLength(init);
      if j < |lists| - 1 {
        OverlayTopmost(init, k, j);
      }
    }
  }

  /** A key no layer labels shows no label. */
  lemma {:induction false} OverlayUnlabelled(lists: seq<seq<Value>>, k: nat)
    requires SameLength(lists) && k < |lists[0]|
    requires forall j :: 0 <= j < |lists| ==> lists[j][k] == Null
    ensures Overlay(lists)[k] == Null
  {
    if |lists| > 1 {
      var init := lists[..|lists| - 1];
      assert SameLength(init);
      OverlayUnlabelled(init, k);
    }
  }

  /** The label lists of the layers of a stack. */
  function StackLabels(stack: seq<LayerData>): (r: seq<seq<Value>>)
    ensures |r| == |stack| && (stack != [] ==> SameLength(r))
  {
    seq(|stack|, i requires 0 <= i < |stack| => KeyLabels(stack[i]))
  }

  /** The messages a profile update enqueues and the exception that ends
      it, if any. */
  datatype Update = Update(messages: seq<seq<Byte>>, raised: Option<Error>)

  /** The profile update for a stack: nothing for an empty stack; otherwise
      the profile record of the topmost layer's name, then the key-label
      record of the overlaid labels. A name or a label that cannot be
      encoded raises and stops the update. */
  function ProfileUpdate(stack: seq<LayerData>): Update
  {
    if stack == [] then Update([], None)
    else RecordsUpdate(stack[|stack| - 1].name, Overlay(StackLabels(stack)))
  }

  /** The two records of a profile update: the profile name, then the key
      labels; an exception from the first stops the update. */
  function RecordsUpdate(name: Value, keyNames: seq<Value>): Update
  {
    match ProfileRecord(name)
    case Raise(e) => Update([], Some(e))
    case Ok(profile) =>
      match KeyNamesRecord(keyNames)
      case Raise(e) => Update([profile], Some(e))
      case Ok(keys) => Update([profile, keys], None)
  }

  /** An empty stack sends nothing; otherwise the first message is the
      profile record of the topmost layer's name, and the update is cut
      short exactly when it raised. */
  lemma ProfileUpdateMeaning(stack: seq<LayerData>)
    ensures var u := ProfileUpdate(stack);
      && (stack == [] ==> u == Update([], None))
      && (stack != [] && u.messages != [] ==> ProfileRecord(stack[|stack| - 1].name) == Ok(u.messages[0]))
      && (stack != [] ==> (|u.messages| == 2 <==> u.raised.None?))
      && (stack != [] && ProfileRecord(stack[|stack| - 1].name).Raise? ==>
            u == Update([], Some(ProfileRecord(stack[|stack| - 1].name).error)))
  {
  }

  /** A stack of layers named by strings whose labels are all printable
      produces both records: the topmost layer's name, and one field per
      key showing its topmost label. */
  lemma ProfileUpdateSendsBoth(stack: seq<LayerData>)
    requires stack != [] && stack[|stack| - 1].name.Str?
    requires forall k :: 0 <= k < KeyCount ==> Printable(Overlay(StackLabels(stack))[k])
    ensures ProfileUpdate(stack).raised.None?
    ensures ProfileUpdate(stack).messages ==
      [ProfileRecord(stack[|stack| - 1].name).value, KeyNamesRecord(Overlay(StackLabels(stack))).value]
  {
    KeyNamesRecordLayout(Overlay(StackLabels(stack)));
  }

  /** key_names[i] = lkn[i] wherever lkn has a label. */
  method OverlayInto(keyNames: seq<Value>, lkn: seq<Value>) returns (merged: seq<Value>)
    requires |keyNames| == |lkn|
    ensures merged == OverlayOnto(keyNames, lkn)
  {
    merged := keyNames;
    for i := 0 to |merged|
      invariant |merged| == |keyNames|
      invariant forall j :: 0 <= j < i ==> merged[j] == OverlayOnto(keyNames, lkn)[j]
      invariant forall j :: i <= j < |merged| ==> merged[j] == keyNames[j]
    {
      if lkn[i] != Null {
        merged := merged[i := lkn[i]];
      }
    }
  }

  // ---------------------------------------------------------------------
  // The stack across reloads and focus changes
  // ---------------------------------------------------------------------

  /** As written, set_layers leaves only the new default layer on the stack
      (Macropadd.SetLayers); when the table has a base layer, the next focus
      change pops down to that layer, which is not on the stack, and so
      pops the default layer as well. To a program no layer is bound to,
      the stack is then empty and no key does anything. */
  lemma ReloadThenFocusLosesDefault(d: Layer, table: LayerTable, path: string, key: string, host: Host)
    requires HasKey(table, "base") && Lookup(table, "base") != d
    requires FirstForApplication(table, Basename(path)).None?
    ensures FocusStack([d], table, path) == []
    ensures Dispatch(StackData(FocusStack([d], table, path)), KeyPress(key), host) == Outcome(false, Run([], true))
  {
    PoppedMeaning([d], table);
  }

  /** As written, a focus change pops only when the table has a base layer:
      without one, every focus change to a program some layer is bound to
      pushes one more layer. */
  lemma FocusWithoutBaseOnlyGrows(stack: seq<Layer>, table: LayerTable, path: string)
    requires !HasKey(table, "base") && FirstForApplication(table, Basename(path)).Some?
    ensures FocusStack(stack, table, path) ==
      stack + [table[FirstForApplication(table, Basename(path)).value].1]
  {
  }

  /** A run of focus changes, as written. */
  function FocusAll(stack: seq<Layer>, table: LayerTable, paths: seq<string>): seq<Layer>
    decreases |paths|
  {
    if paths == [] then stack else FocusAll(FocusStack(stack, table, paths[0]), table, paths[1..])
  }

  /** Without a base layer, n focus changes to bound programs leave n more
      layers on the stack: the stack grows without bound. */
  lemma {:induction false} FocusAllWithoutBaseGrows(stack: seq<Layer>, table: LayerTable, paths: seq<string>)
    requires !HasKey(table, "base")
    requires forall i :: 0 <= i < |paths| ==> FirstForApplication(table, Basename(paths[i])).Some?
    ensures |FocusAll(stack, table, paths)| == |stack| + |paths|
    decreases |paths|
  {
    if paths != [] {
      FocusWithoutBaseOnlyGrows(stack, table, paths[0]);
      FocusAllWithoutBaseGrows(FocusStack(stack, table, paths[0]), table, paths[1..]);
    }
  }

  /** How many layers stay at the bottom of the stack: the default layer,
      and the base layer when the table has one. */
  function BaseDepth(table: LayerTable): nat
  {
    if HasKey(table, "base") then 2 else 1
  }

  /** set_layers as evidently intended: the default layer, with the base
      layer on it when the table has one. */
  function IntendedReload(d: Layer, table: LayerTable): (r: seq<Layer>)
    ensures |r| == BaseDepth(table)
  {
    [d] + (if HasKey(table, "base") then [Lookup(table, "base")] else [])
  }

  /** handle_process_change's stack as evidently intended: cut down to the
      default and base layers, then the focused program's layer, if any,
      pushed on top. */
  function IntendedFocus(stack: seq<Layer>, table: LayerTable, path: string): seq<Layer>
  {
    var kept := if |stack| <= BaseDepth(table) then stack else stack[..BaseDepth(table)];
    match FirstForApplication(table, Basename(path))
    case None => kept
    case Some(i) => kept + [table[i].1]
  }

  /** The shape the stack is meant to keep: [default, base?, app?]. */
  predicate WellFormedStack(stack: seq<Layer>, d: Layer, table: LayerTable)
  {
    BaseDepth(table) <= |stack| <= BaseDepth(table) + 1 &&
    stack[..BaseDepth(table)] == IntendedReload(d, table)
  }

  /** The intended reload leaves a well-formed stack. */
  lemma IntendedReloadWellFormed(d: Layer, table: LayerTable)
    ensures WellFormedStack(IntendedReload(d, table), d, table)
  {
    var r := IntendedReload(d, table);
    assert r[..BaseDepth(table)] == r;
  }

  /** The intended focus change keeps the stack well formed: the default
      and base layers stay at the bottom, and the focused program's layer,
      if any, is the only one above them. */
  lemma IntendedFocusKeepsShape(stack: seq<Layer>, d: Layer, table: LayerTable, path: string)
    requires WellFormedStack(stack, d, table)
    ensures WellFormedStack(IntendedFocus(stack, table, path), d, table)
    ensures var app := FirstForApplication(table, Basename(path));
      IntendedFocus(stack, table, path) ==
        IntendedReload(d, table) + (if app.Some? then [table[app.value].1] else [])
  {
    var app := FirstForApplication(table, Basename(path));
    var r := IntendedFocus(stack, table, path);
    var depth := BaseDepth(table);
    var kept := if |stack| <= depth then stack else stack[..depth];
    assert kept == IntendedReload(d, table);
    if app.Some? {
      assert r == kept + [table[app.value].1];
      assert r[..depth] == kept;
    } else {
      assert r[..depth] == kept;
    }
  }

  /** Whatever the stack, the intended focus change leaves at most one
      layer above the default and base layers. */
  lemma IntendedFocusBounded(stack: seq<Layer>, table: LayerTable, path: string)
    ensures |IntendedFocus(stack, table, path)| <= BaseDepth(table) + 1
  {
  }

  /** On a well-formed stack whose bottom layer is the default layer, every
      key of the keypad is handled. */
  lemma WellFormedStackHandlesEveryKey(stack: seq<Layer>, d: Layer, table: LayerTable, key: string, host: Host)
    requires WellFormedStack(stack, d, table) && d.Data() == DefaultLayer() && key in ValidKeyNames
    ensures Dispatch(StackData(stack), KeyPress(key), host).handled
  {
    DefaultLayerBindsEveryKey();
    assert stack[0] == stack[..BaseDepth(table)][0] == d;
    assert Binding(StackData(stack)[0], KeyPress(key)).Some?;
  }

  // ---------------------------------------------------------------------
  // Encoder readings
  // ---------------------------------------------------------------------

  /** The change between two readings of the encoder's 8-bit counter, read
      as a signed 8-bit step count. */
  function EncoderDelta(last: Byte, val: Byte): (d: int)
    ensures -128 <= d < 128 && (last + d) % 256 == val
  {
    var diff := (val - last) % 256;
    if diff >= 128 then diff - 256 else diff
  }

  /** The signed step count is the only one in [-128, 128) that moves the
      counter from one reading to the next. */
  lemma EncoderDeltaUnique(last: Byte, val: Byte, d: int)
    requires -128 <= d < 128 && (last + d) % 256 == val
    ensures d == EncoderDelta(last, val)
  {
    var e := EncoderDelta(last, val);
    assert (d - e) % 256 == 0;
  }

  /** The events a reading is meant to dispatch: one inc or dec per step. */
  function IntendedEncoderEvents(last: Byte, val: Byte): (evs: seq<Event>)
    ensures |evs| == if EncoderDelta(last, val) < 0 then -EncoderDelta(last, val) else EncoderDelta(last, val)
    ensures forall i :: 0 <= i < |evs| ==> evs[i] == if EncoderDelta(last, val) > 0 then EncoderInc else EncoderDec
  {
    var d := EncoderDelta(last, val);
    var n := if d < 0 then -d else d;
    seq(n, _ => if d > 0 then EncoderInc else EncoderDec)
  }

  /** Away from the wrap, and when the counter moved, the plain comparison
      picks the direction of the signed step count. */
  lemma DirectionAgreesAwayFromWrap(last: Byte, val: Byte)
    requires last != val && -128 < val - last < 128
    ensures EncoderDirection(last, val) == IntendedEncoderEvents(last, val)[0]
  {
  }

  /** Across the wrap the plain comparison turns the wrong way: from 250 to
      10 the counter moved 16 steps forward, and one dec is dispatched.
      With no movement one dec is dispatched too, where none is meant. */
  lemma WrapTurnsBackwards()
    ensures EncoderDirection(250, 10) == EncoderDec
    ensures IntendedEncoderEvents(250, 10) == seq(16, _ => EncoderInc)
    ensures EncoderDirection(10, 250) == EncoderInc
    ensures IntendedEncoderEvents(10, 250) == seq(16, _ => EncoderDec)
    ensures EncoderDirection(7, 7) == EncoderDec && IntendedEncoderEvents(7, 7) == []
  {
    assert EncoderDelta(250, 10) == 16;
    assert EncoderDelta(10, 250) == -16;
  }

  // ---------------------------------------------------------------------
  // The daemon object
  // ---------------------------------------------------------------------

  /** Which of the encoder events one reading dispatches: a plain
      comparison with the last reading, inc when the counter grew and dec
      otherwise (including when it did not move). */
  function EncoderDirection(last: int, val: int): Event
  {
    if last < val then EncoderInc else EncoderDec
  }

  class Macropadd {
    var activeLayers: seq<Layer>
    var allLayers: LayerTable
    var lastEncoderRot: int
    const hal: Hal

    /** Macropadd.__init__: no active layers, an empty table, a last
        encoder reading of 0. */
    constructor(hal: Hal)
      ensures activeLayers == [] && allLayers == [] && lastEncoderRot == 0 && this.hal == hal
    {
      activeLayers := [];
      allLayers := [];
      lastEncoderRot := 0;
      this.hal := hal;
    }

    /** Macropadd.set_layers, as written: the base layer is appended to the
        list being replaced, so the new stack holds only a fresh default
        layer. */
    method SetLayers(layers: LayerTable)
      modifies this
      ensures allLayers == layers && lastEncoderRot == old(lastEncoderRot)
      ensures |activeLayers| == 1 && fresh(activeLayers[0]) && activeLayers[0].Data() == DefaultLayer()
    {
      allLayers := layers;
      var defaultLayer := CreateDefaultLayer();
      var newActive := [defaultLayer];
      if HasKey(allLayers, "base") {
        activeLayers := activeLayers + [Lookup(allLayers, "base")];
      }
      activeLayers := newActive;
    }

    /** Macropadd.handle_key_event */
    method HandleKeyEvent(key: string, host: Host) returns (handled: bool, trace: seq<Effect>, completed: bool)
      ensures Outcome(handled, Run(trace, completed)) == Dispatch(StackData(activeLayers), KeyPress(key), host)
    {
      handled, trace, completed := DispatchDown(activeLayers, KeyPress(key), host);
    }

    /** Macropadd.handle_encoder_inc */
    method HandleEncoderInc(host: Host) returns (handled: bool, trace: seq<Effect>, completed: bool)
      ensures Outcome(handled, Run(trace, completed)) == Dispatch(StackData(activeLayers), EncoderInc, host)
    {
      handled, trace, completed := DispatchDown(activeLayers, EncoderInc, host);
    }

    /** Macropadd.handle_encoder_dec */
    method HandleEncoderDec(host: Host) returns (handled: bool, trace: seq<Effect>, completed: bool)
      ensures Outcome(handled, Run(trace, completed)) == Dispatch(StackData(activeLayers), EncoderDec, host)
    {
      handled, trace, completed := DispatchDown(activeLayers, EncoderDec, host);
    }

    /** Macropadd.handle_encoder_button: its `layers` argument is ignored;
        the active stack is searched. */
    method HandleEncoderButton(layers: seq<Layer>, host: Host) returns (handled: bool, trace: seq<Effect>, completed: bool)
      ensures Outcome(handled, Run(trace, completed)) == Dispatch(StackData(activeLayers), EncoderBtn, host)
    {
      handled, trace, completed := DispatchDown(activeLayers, EncoderBtn, host);
    }

    /** Macropadd.handle_encoder_event: one inc or one dec, then the reading
        is remembered (unless the action raised). */
    method HandleEncoderEvent(val: int, host: Host) returns (handled: bool, trace: seq<Effect>, completed: bool)
      modifies this
      ensures Outcome(handled, Run(trace, completed)) ==
        Dispatch(StackData(activeLayers), EncoderDirection(old(lastEncoderRot), val), host)
      ensures lastEncoderRot == if completed then val else old(lastEncoderRot)
      ensures activeLayers == old(activeLayers) && allLayers == old(allLayers)
    {
      if lastEncoderRot < val {
        handled, trace, completed := HandleEncoderInc(host);
      } else {
        handled, trace, completed := HandleEncoderDec(host);
      }
      if completed {
        lastEncoderRot := val;
      }
    }

    /** Macropadd.handle_process_change for the program at `path`: the new
        stack replaces the active one, then the display is updated from it.
        The focus listener passes None when the program's file name cannot
        be read; `basename(None)` then raises TypeError before the new stack
        is assigned, so nothing changes. */
    method HandleProcessChange(path: Option<string>) returns (raised: Option<Error>)
      modifies this, hal
      ensures path.None? ==>
        && raised == Some(TypeError)
        && activeLayers == old(activeLayers)
        && hal.msgQueue == old(hal.msgQueue)
      ensures path.Some? ==>
        && activeLayers == FocusStack(old(activeLayers), allLayers, path.value)
        && hal.msgQueue == old(hal.msgQueue) + ProfileUpdate(StackData(activeLayers)).messages
        && raised == ProfileUpdate(StackData(activeLayers)).raised
      ensures allLayers == old(allLayers) && lastEncoderRot == old(lastEncoderRot)
    {
      if path.None? {
        return Some(TypeError);
      }
      activeLayers := NewStack(activeLayers, allLayers, path.value);
      ghost var data := StackData(activeLayers);
      raised := SendProfileUpdate(hal, activeLayers);
      assert StackData(activeLayers) == data;
    }
  }

  /** The pop loop of handle_process_change. */
  method PopToBaseLayer(stack: seq<Layer>, table: LayerTable) returns (popped: seq<Layer>)
    ensures popped == Popped(stack, table)
  {
    popped := stack;
    if HasKey(table, "base") {
      var base := Lookup(table, "base");
      while |popped| > 0 && popped[|popped| - 1] != base
        invariant PopToBase(popped, base) == PopToBase(stack, base)
        decreases |popped|
      {
        popped := popped[..|popped| - 1];
      }
    }
  }

  /** The search of handle_process_change for the first layer bound to
      `process`. */
  method FindApplicationLayer(table: LayerTable, process: string) returns (r: Option<nat>)
    ensures r == FirstForApplication(table, process)
  {
    var i := 0;
    while i < |table| && table[i].1.application != Str(process)
      invariant 0 <= i <= |table|
      invariant forall j :: 0 <= j < i ==> table[j].1.application != Str(process)
    {
      i := i + 1;
    }
    if i < |table| {
      return Some(i);
    }
    return None;
  }

  /** The stack handle_process_change builds: popped, then the focused
      program's layer pushed. */
  method NewStack(stack: seq<Layer>, table: LayerTable, path: string) returns (newActive: seq<Layer>)
    ensures newActive == FocusStack(stack, table, path)
  {
    newActive := PopToBaseLayer(stack, table);
    var found := FindApplicationLayer(table, Basename(path));
    if found.Some? {
      newActive := newActive + [table[found.value].1];
    }
  }

  /** The profile update of handle_process_change for a stack. The
      overlaid labels are computed before the first record is sent rather
      than after: computing them reads only the layers, which sending does
      not touch. */
  method SendProfileUpdate(hal: Hal, stack: seq<Layer>) returns (raised: Option<Error>)
    modifies hal
    ensures hal.msgQueue == old(hal.msgQueue) + ProfileUpdate(old(StackData(stack))).messages
    ensures raised == ProfileUpdate(old(StackData(stack))).raised
    ensures StackData(stack) == old(StackData(stack))
  {
    ghost var data := StackData(stack);
    if |stack| == 0 {
      return None;
    }
    var keyNames := OverlaidLabels(stack);
    var name := stack[|stack| - 1].name;
    assert ProfileUpdate(data) == RecordsUpdate(name, keyNames);
    raised := SendRecords(hal, name, keyNames);
  }

  /** send_profile_name, then, unless it raised, send_key_names. */
  method SendRecords(hal: Hal, name: Value, keyNames: seq<Value>) returns (raised: Option<Error>)
    modifies hal
    ensures hal.msgQueue == old(hal.msgQueue) + RecordsUpdate(name, keyNames).messages
    ensures raised == RecordsUpdate(name, keyNames).raised
  {
    raised := hal.SendProfileName(name);
    if raised.Some? {
      return;
    }
    raised := hal.SendKeyNames(keyNames);
  }

  /** The labels of the bottom layer, overlaid by each layer above it. */
  method OverlaidLabels(stack: seq<Layer>) returns (keyNames: seq<Value>)
    requires stack != []
    ensures keyNames == Overlay(StackLabels(StackData(stack)))
  {
    ghost var data := StackData(stack);
    keyNames := stack[0].GetKeyNames();
    var k := 1;
    while k < |stack|
      invariant 1 <= k <= |stack|
      invariant keyNames == Overlay(StackLabels(data[..k]))
    {
      var lkn := stack[k].GetKeyNames();
      assert |lkn| == |keyNames|;
      keyNames := OverlayInto(keyNames, lkn);
      assert StackLabels(data[..k + 1])[..k] == StackLabels(data[..k]);
      k := k + 1;
    }
    assert data[..k] == data;
  }
}
