# macropadd in Dafny

macropadd is a desktop daemon for a twelve-key USB macro keypad with a
rotary encoder and a small display. Each key is bound to an action: send a
hotkey, type text, bring a program's window to the front, run a sequence of
actions, or repeat an action. Bindings are grouped into layers, which are
read from a YAML layers file. The daemon keeps a stack of active layers. A
key or encoder event is handled by the topmost layer that binds it. When the
focused program changes, the stack is rebuilt: it is popped back to the
`base` layer, then the layer whose `application` names the program is
pushed. Each time the stack changes, the daemon sends the keypad two
records: the name of the top layer, and one four-character label per key.

The model has six modules, one per source file plus one for the Python
built-ins the code relies on:

- `Yaml` (`yaml_values.dfy`) holds the kinds of value the model admits
  from a YAML document: `None`, booleans, integers, strings, lists and
  string-keyed mappings that keep insertion order (floats and the other
  YAML scalars are left out, see below). A loaded document never repeats
  a key in a mapping: the YAML loader keeps the last value of a repeated
  key. The lemmas that depend on this require `UniqueKeys`. The module also
  holds the built-ins the code applies to these values: `in`, `d[k]`,
  `d.get`, item assignment, iteration and `int()`.
  An exception is the `Raise` case of a `Result`, which carries the kind of
  Python exception.
- `Actions` (`actions.dfy`) models action.py. It covers the five action
  variants and `parse_action`, with its order of variants and its
  exceptions, and proves that every action reads back from its
  configuration form. Running an action is modelled as a trace of effects
  on the host (sleeps, key presses, typing, window calls, launches) plus a
  flag saying whether the run returned or raised. The window manager's
  answers are a `Host` parameter.
- `Layers` (`layers.dfy`) models layer.py. It covers the `Layer` class,
  the parser from a layer record, the default layer, `parse_layers` over
  the loaded document, and the debounced file-change handler.
- `DeviceBridge` (`device_bridge.dfy`) models hal.py. It covers the two
  display records and their byte layout, the reordering of the key labels
  into rows from top to bottom, the encoder report and how it is
  dispatched, and the outgoing message queue.
- `Router` (`router.dfy`) models main.py. It covers the `Macropadd` class:
  dispatching events down the layer stack, the encoder's direction, the
  reaction to a change of the focused program, and the profile update. It
  also holds the findings below.
- `Macros` (`macros.dfy`) models macros.py, an earlier version of the
  action and layer code that is still shipped. The module has its own
  decoder, which returns `None` where action.py raises, and a sequence
  written as a bare list. It proves where the two versions agree and where
  they differ.

Where Python's behaviour depends on the version, the model follows
CPython 3.11 on Windows, the platform the daemon targets. `int()` and
`str()` refuse numerals of more than 4300 digits. `time.sleep` refuses a
delay whose nanoseconds do not fit in a signed 64-bit integer. Slicing a
mapping raises TypeError (KeyError from 3.12 on).

The imperative parts stay imperative. `Layer`, `LayerFileHandler`, `Hal`
and `Macropadd` are classes whose methods update fields, and every loop of
the source is a method with a loop. Each such method is proved equal to a
specification function, and the properties are proved as lemmas about
those functions.

In three places the code does not do what it evidently sets out to do.
The model follows the code as written:

- Reloading the layers file. `set_layers` appends the `base` layer to the
  old stack (main.py:25-26), a step that only makes sense if the base
  layer is meant to stay active. It then replaces that stack with
  `[default]` (main.py:27), so the base layer is dropped (finding 1).
- The encoder reading. It is the raw byte `data[1]` of the report
  (hal.py:88), a counter that wraps at 256. `handle_encoder_event`
  compares two readings with a single `<` and emits one event
  (main.py:70-74), so a wrap reverses the direction and several steps
  count as one (finding 3).
- The encoder button. `handle_encoder_button` (main.py:78-83) exists, but
  nothing assigns it to `encoder_button_handler` (hal.py:14), so the
  button is never handled. If it were registered, it would run on every
  encoder report, pressed or not, because the parsed button state is
  never None (hal.py:164-165).

The outgoing queue is `Queue()` with no size bound (hal.py:17), and so is
`Hal.msgQueue`.

## Model

| member | source | states |
|---|---|---|
| Yaml.Find | layer.py:35 | the position of the first entry carrying the key; None exactly when no entry carries it |
| Yaml.Get | action.py:42 | `d.get(k, default)`: the value under the key when it is present, the default otherwise |
| Yaml.AssignMeaning | layer.py:106 | `d[k] = v`: an existing key is overwritten in place and keeps its position, a new key is appended; afterwards k maps to v, every other key keeps its value and position, and unique keys stay unique |
| Yaml.Subscript | action.py:81 | `d[k]` succeeds exactly on a mapping holding k and yields its value; it raises KeyError on a mapping without k and TypeError on anything else |
| Yaml.Iterate | action.py:109 | iterating a list yields its items, a mapping its keys in order, a string its characters; any other value raises TypeError |
| Yaml.ParseDecimal | action.py:84-85 | a string that is not a decimal numeral of at most 4300 digits makes `int()` raise ValueError and nothing else |
| Yaml.ToInt | action.py:84-85 | `int()` keeps integers, maps booleans to 0/1, raises TypeError on None, lists and mappings, and raises only ValueError on a string |
| Yaml.DecimalValue | action.py:84-85 | a number's decimal numeral reads back as that number |
| Yaml.ToIntOfDecimal | action.py:84-85 | `int()` of a number's signed decimal numeral is the number when the numeral has at most 4300 digits, and raises ValueError otherwise |
| Yaml.ParseNumeral | action.py:84-85 | `int()` of an optionally signed run of digits is its value with that sign, or ValueError beyond 4300 digits |
| Yaml.SignedNumeral | action.py:84-85 | the same for the numeral once the surrounding whitespace is stripped |
| Actions.NameOf | action.py:42 | an action's name is the `name` entry when present, `''` otherwise |
| Actions.IntField | action.py:84-85 | an optional integer field is its default when absent and `int()` of its value when present |
| Actions.ParseAction | action.py:170-185 | the result is None (no exception) exactly when the specification is not a mapping |
| Actions.ParseActionOrder | action.py:175-183 | the first present key among hotkey, type, activateWindow, sequence and repeat decides the variant; a mapping with none of them raises ValueError; a parsed action carries the record's name |
| Actions.ParseRepeat | action.py:79-87 | a record yields None from the repeat parser exactly when it has no `repeat` key |
| Actions.ParseRepeatMeaning | action.py:79-87 | a missing `action` propagates its exception; an inner action parsing to None raises ValueError; a parsed repeat has the inner action, `count` (default 0) and `delayMs` (default 20) read with `int()` |
| Actions.ParseSequential | action.py:106-116 | a record yields None from the sequence parser exactly when it has no `sequence` key |
| Actions.ParseSequentialMeaning | action.py:106-116 | a missing `steps` propagates its exception; a parsed sequence has the parsed steps and `delayMs` (default 20) read with `int()` |
| Actions.ParseStepValues | action.py:109 | steps that are not iterable raise TypeError |
| Actions.ParseEach | action.py:109-110 | one outcome per step, each the outcome of parsing that step |
| Actions.CollectStepsSnoc | action.py:109-113 | one iteration of the step loop: after a failure nothing changes; otherwise the next step is appended or its failure becomes the result |
| Actions.CollectStepsAllOk | action.py:108-113 | the step list is built exactly when every step parses, and it then holds the parsed steps in order |
| Actions.CollectStepsStopsAtFailure | action.py:110-112 | once a step has failed, the steps after it do not change the result |
| Actions.CollectStepsFirstFailure | action.py:110-112 | the result is the failure of the first step that fails |
| Actions.ParseStepsAllParsed | action.py:108-113 | a step list parses exactly when every step parses to an action, and then it holds those actions in order |
| Actions.ParseStepsFirstFailure | action.py:110-112 | a step list that does not parse fails with the exception of its first unparsable step |
| Actions.StepValuesCollect | action.py:109-113 | parsing the steps value is the step loop over its iteration; a non-iterable raises TypeError |
| Actions.ParseSequentialAction | action.py:106-116 | the loop of SequentialAction.parse computes the sequence parser's result |
| Actions.ParseUnparse | action.py:170-185 | every action, nested ones included, is parsed back from its configuration record |
| Actions.ParseUnparseSequential | action.py:106-116 | a sequence record with parsable steps, a delay and a name parses to that sequence |
| Actions.ParseUnparseRepeat | action.py:79-87 | a repeat record with a parsable inner action, a count, a delay and a name parses to that repeat |
| Actions.ParseUnparseSteps | action.py:108-113 | a list of step records written from actions parses back to those actions |
| Actions.RunAction | action.py:36-162 | running an action (with the loops of Sequential and Repeat) produces exactly the specified trace and outcome |
| Actions.Exec | action.py:36-103 | (definition) the trace and outcome of `a.run()`: one key press, one typed text, the window activation, the sequence of steps, or the repetitions; a sequence or repeat whose delay `float()` cannot convert raises before its loop |
| Actions.ExecSteps | action.py:99-103 | (definition) for each step in turn a sleep of the delay, then the step; a delay `time.sleep` refuses (negative, or beyond MaxSleepMs) or a raising step ends the run as raised |
| Actions.RepeatRuns | action.py:72-76 | (definition) n rounds of a sleep and the inner action; a delay `time.sleep` refuses or a raising inner action ends the run as raised |
| Actions.ActivateRun | action.py:127-162 | (definition) nothing off Windows; a program path that is not a string raises; otherwise the activation decision for the window the host reports |
| Actions.ActivateEffects | action.py:149-162 | (definition) no effect for a matching window in front; restore if minimised and set foreground for one that is not; launch the program when no window (or the handle 0) was found |
| Actions.RepeatRunsSnoc | action.py:74-76 | one more repetition adds a sleep and the inner action's trace, or fails at a delay `time.sleep` refuses |
| Actions.ExecStepsSnoc | action.py:101-103 | one more step adds a sleep and that step's trace, or fails at a delay `time.sleep` refuses |
| Actions.ExecStepsStopsAtFailure | action.py:101-103 | once a step raises, no later step runs |
| Actions.SafeRunCompletes | action.py:72-103 | an action whose delays all convert to floats, and whose delays that are slept are between 0 and MaxSleepMs, always returns |
| Actions.SafeStepsComplete | action.py:99-103 | a sequence of such steps, with a delay `time.sleep` accepts, returns |
| Actions.RepeatRunsComplete | action.py:72-76 | repeating a returning action with a delay `time.sleep` accepts returns |
| Actions.RepeatRunsExactly | action.py:72-76 | with a delay `time.sleep` accepts, a repeat runs `sleep, inner` exactly max(count, 0) times |
| Actions.RepeatRunsIsRepeated | action.py:74-76 | with a delay `time.sleep` accepts, n repetitions are n copies of `sleep, inner` |
| Actions.RepeatEdgeCases | action.py:72-76 | a delay `float()` cannot convert raises whatever the count; otherwise a count of zero or less does nothing; a positive count with a delay `time.sleep` refuses raises before running the inner action |
| Actions.SequentialEdgeCases | action.py:99-103 | a delay `float()` cannot convert raises even with no steps; otherwise no steps means nothing happens; steps with a delay `time.sleep` refuses raise before the first step |
| Actions.SequentialRunsInOrder | action.py:99-103 | with a delay `time.sleep` accepts, a sequence runs `sleep, step` for each step in order |
| Actions.ActivationBringsToFront | action.py:149-162 | a matching window already in front gives no effect and leaves the desktop as it is, even if minimised; any other matching window is restored if minimised and then brought to the foreground, and no other window changes; with no window found, exactly one launch is requested and nothing else changes |
| Layers.KeyNameIsValid | layer.py:93-94 | `F{i}` for i in 13..24 is the (i-13)-th valid key name |
| Layers.RunBinding | layer.py:69-74 | an event is handled exactly when a binding exists; then that action runs, and otherwise nothing runs |
| Layers.Layer.constructor | layer.py:17-23 | a new layer has its name, no key bindings and no encoder bindings |
| Layers.Layer.FromSpecDict | layer.py:32-49 | builds the layer the layer parser describes, or raises its exception |
| Layers.Layer.GetKeyNames | layer.py:51-58 | one label per valid key in order: the bound action's name, or None |
| Layers.Layer.RunActionForKey | layer.py:60-67 | handles the key exactly when it is bound, running its action; an unbound key runs nothing |
| Layers.Layer.RunActionForEncoderInc | layer.py:69-74 | runs the encoder-increment binding if there is one |
| Layers.Layer.RunActionForEncoderDec | layer.py:76-81 | runs the encoder-decrement binding if there is one |
| Layers.Layer.RunActionForEncoderBtn | layer.py:83-88 | runs the encoder-button binding if there is one |
| Layers.RunOptional | layer.py:69-88 | the shared body of the three encoder methods meets the binding specification |
| Layers.LayerFromSpecMeaning | layer.py:32-49 | a missing `name` raises KeyError; otherwise the layer has the name, the `application` (default None) and the key bindings, and it fails exactly when binding the keys fails |
| Layers.LayerFromSpec | layer.py:32-49 | (definition) the layer built from a record: `spec["name"]`, the `application` or None, the key bindings, no encoder bindings; or the first exception |
| Layers.BindKeys | layer.py:38-47 | (definition) the bindings the entry loop makes: valid keys only, a None parse skipped, a later entry for a key replacing an earlier one, an exception ending the loop |
| Layers.KeyLabels | layer.py:51-58 | (definition) for each valid key in order, the bound action's name or None |
| Layers.BindKeysSnoc | layer.py:38-47 | one loop step: entries that are not valid keys are skipped, a None parse is skipped, a parse exception ends the loop, and otherwise the key is bound |
| Layers.BindKeysStopsAtFailure | layer.py:42 | once an action raises, later entries do not matter |
| Layers.BindKeysSucceeds | layer.py:38-47 | binding succeeds exactly when no valid key's action raises |
| Layers.BindKeysContents | layer.py:38-47 | a key is bound exactly when it is valid, present and parses to an action, and it is bound to that action |
| Layers.CreateDefaultLayer | layer.py:91-96 | a fresh layer equal to the default layer |
| Layers.DefaultBindingsStep | layer.py:93-95 | each loop iteration binds one more key to the hotkey of its own name |
| Layers.DefaultLayerBindsEveryKey | layer.py:91-96 | the default layer is named `default`, binds exactly the twelve valid keys each to its own hotkey, and labels every key with its own name |
| Layers.BuildEach | layer.py:104-105 | one parse outcome per record of the file, in order |
| Layers.TabulateSnoc | layer.py:104-106 | one iteration of the file loop: a parse failure ends it, otherwise the layer is stored under its key |
| Layers.TabulateGrows | layer.py:105-106 | a parsed layer is stored under its key |
| Layers.TabulateFails | layer.py:105 | a record that fails to parse makes the whole load raise its exception |
| Layers.TabulateStopsAtFailure | layer.py:104-105 | after a failure the remaining records do not matter |
| Layers.TabulateSucceeds | layer.py:103-107 | loading succeeds exactly when every record parses |
| Layers.TabulateInOrder | layer.py:103-107 | a successful load holds one layer per key, in file order, each parsed from its record |
| Layers.LayersFromEntriesSucceeds | layer.py:103-107 | the table is built exactly when every layer record parses |
| Layers.LayersFromEntriesInOrder | layer.py:103-107 | the table has the file's keys in order, each mapped to the layer parsed from its record |
| Layers.ParseLayers | layer.py:99-107 | a document that is not a mapping raises AttributeError; otherwise a table of fresh layers whose contents are the parsed records, or the first record's exception |
| Layers.TableFromSpec | layer.py:99-107 | (definition) a document that is not a mapping raises AttributeError; otherwise the table of the layers parsed from its entries |
| Layers.LayersFromItems | layer.py:103-107 | the loop builds fresh layers whose contents are exactly the parsed table, or raises the first failure |
| Layers.AcceptedAreSpaced | layer.py:120-124 | accepted change events are at least 500 ms after the previous trigger and after each other |
| Layers.AcceptedKeepsSpacedEvents | layer.py:120-124 | each further change event is kept exactly when it comes at least 500 ms after the last accepted one (or the starting trigger time), and dropped otherwise |
| Layers.LastTrigger | layer.py:124 | (definition) the trigger time after a timeline: the last accepted event, or the starting time when none was accepted |
| Layers.LayerFileHandler.constructor | layer.py:115-118 | the last trigger time starts at 0 |
| Layers.LayerFileHandler.OnModified | layer.py:120-131 | an accepted event moves the trigger time to now and passes on a new table exactly when loading and parsing succeed; a rejected event changes nothing |
| DeviceBridge.AsciiBytes | hal.py:37 | ASCII encoding that drops other characters: never longer than the text, and the code points of an all-ASCII text |
| DeviceBridge.ProfileRecord | hal.py:36-41 | a string name gives 9 bytes: type 3, the ASCII bytes of the first 8 characters, then zero padding; a list raises AttributeError, any other value TypeError |
| DeviceBridge.ProfileRecordRoundTrip | hal.py:36-41 | the display reads back the first 8 characters of an ASCII name |
| DeviceBridge.ReorderTwelve | hal.py:46-48 | the rows of twelve labels are sent from top to bottom; the wire position j carries label WireIndex(j), and reordering twice restores the order |
| DeviceBridge.Reorder | hal.py:47 | (definition) `names[8:] + names[4:8] + names[:4]` |
| DeviceBridge.Fit | hal.py:52-53 | `f'{n:4.4}'`: the first four characters padded with spaces to exactly four |
| DeviceBridge.LabelField | hal.py:51-56 | None gives four spaces, a string gives its fitted encoding, a number raises ValueError and anything else TypeError |
| DeviceBridge.FieldEach | hal.py:50-56 | one field outcome per label, in order |
| DeviceBridge.PrintableField | hal.py:51-56 | an ASCII label or None gives exactly four bytes |
| DeviceBridge.KeyNamesRecordLayout | hal.py:43-59 | for twelve printable labels the record is type 4 followed by twelve four-byte fields in wire order |
| DeviceBridge.KeyNamesRecord | hal.py:43-59 | (definition) the reordered labels must be twelve, each label's field is appended in wire order after type 4, and the record must be 49 bytes; AssertionError or the label's exception otherwise |
| DeviceBridge.Fields | hal.py:50-56 | (definition) the labels' fields concatenated in order, or the first label's exception |
| DeviceBridge.JoinSnoc | hal.py:50-56 | one loop step appends the next field or fails |
| DeviceBridge.JoinStopsAtFailure | hal.py:53 | once a label raises, the remaining labels do not matter |
| DeviceBridge.JoinFixedWidth | hal.py:50-56 | four-byte fields concatenate to one four-byte slot each |
| DeviceBridge.FieldsOfPrintable | hal.py:50-56 | printable labels give a field block in which slot j is label j's field |
| DeviceBridge.NonAsciiLabelRejected | hal.py:56-58 | a label with a non-ASCII character among its first four shortens the record, so the length assertion raises AssertionError |
| DeviceBridge.FieldsShort | hal.py:56 | a label with a non-ASCII character among its first four makes the field block shorter than four bytes per label |
| DeviceBridge.AsciiBytesDrops | hal.py:56 | encoding a text with a non-ASCII character gives fewer bytes than characters |
| DeviceBridge.JoinShort | hal.py:50-56 | one short field makes the concatenation short |
| DeviceBridge.JoinBounded | hal.py:50-56 | fields of at most four bytes concatenate to at most four bytes per field |
| DeviceBridge.ParseEncoderReport | hal.py:85-89 | a report is recognised exactly when it has 3 bytes and tag 2; it gives the rotation byte and whether the button byte is non-zero |
| DeviceBridge.EncoderReportRoundTrip | hal.py:85-89 | an encoded report parses back to itself |
| DeviceBridge.DispatchReport | hal.py:158-165 | a recognised report calls the rotation handler, then the button handler, each only if registered; an unrecognised one calls nothing |
| DeviceBridge.Hal.constructor | hal.py:12-17 | the message queue starts empty |
| DeviceBridge.Hal.SendProfileName | hal.py:36-41 | a well-formed profile record is appended to the queue; otherwise the exception is returned and the queue is unchanged |
| DeviceBridge.Hal.SendKeyNames | hal.py:43-59 | the key-names record is appended to the queue; otherwise the exception is returned and the queue is unchanged |
| DeviceBridge.FormatFields | hal.py:50-56 | the label loop computes the field block |
| Router.Resolve | main.py:48-53 | the topmost layer binding the event; None exactly when no layer binds it |
| Router.Dispatch | main.py:48-83 | (definition) the action of the topmost layer binding the event runs and the event is handled; an event no layer binds runs nothing |
| Router.TopmostBindingWins | main.py:48-53 | the topmost layer that binds an event runs its action, and the event counts as handled |
| Router.UnboundEventRunsNothing | main.py:48-53 | an event no layer binds is unhandled and runs nothing |
| Router.ResolveStep | main.py:50-52 | adding a layer on top: it wins if it binds the event, otherwise the lower layers decide |
| Router.RunLayerFor | main.py:51 | asks a layer for the binding that matches the event's kind |
| Router.DispatchDown | main.py:49-53 | the top-down loop over the copied stack computes the dispatch specification |
| Router.LastComponentMeaning | main.py:93 | the basename is the longest suffix without a separator, preceded by a separator if shorter than the path |
| Router.BasenameOfJoin | main.py:93 | the basename of `dir/name` is `name`, except that a lone separator followed by a name starting with `:` reads as a drive and loses the `:` |
| Router.LastComponentAfterSeparator | main.py:93 | the suffix after the last separator is the name |
| Router.Basename | main.py:93 | (definition) the last component after `/` or `\`, once a two-character drive prefix (any path whose second character is `:`) is removed |
| Router.PopToBase | main.py:89-90 | popping keeps a prefix of the stack ending at the base layer, and nothing popped is the base |
| Router.FirstForApplication | main.py:95-98 | the first layer in table order whose application is the process; None exactly when there is none |
| Router.PoppedMeaning | main.py:86-90 | without a base layer the stack is kept; with one the stack is cut just above the base, or emptied when the base is absent |
| Router.Popped | main.py:86-90 | (definition) the stack popped to the base layer when the table has one, the stack itself otherwise |
| Router.FocusStack | main.py:85-102 | (definition) the popped stack with the first layer for the program's basename, if any, pushed on top |
| Router.PopToBaseStopsAtBase | main.py:89-90 | if the base layer is on the stack, popping leaves a non-empty stack |
| Router.Overlay | main.py:110-116 | the merged labels have one entry per key |
| Router.OverlayTopmost | main.py:110-116 | each key shows the label of the topmost layer that labels it |
| Router.OverlayUnlabelled | main.py:110-116 | a key no layer labels shows None |
| Router.StackLabels | main.py:110-113 | every layer gives a label list of the same length, so the length assertion always holds |
| Router.ProfileUpdateMeaning | main.py:106-118 | an empty stack sends nothing; otherwise the profile record of the top layer goes first, and both records are sent exactly when nothing raises |
| Router.ProfileUpdateSendsBoth | main.py:106-118 | with a string top name and printable merged labels, the profile record and the key-names record are sent |
| Router.ProfileUpdate | main.py:106-118 | (definition) nothing for an empty stack; otherwise the profile record of the top layer's name, then the key-names record of the overlaid labels, stopping at the first exception |
| Router.OverlayInto | main.py:114-116 | the merge loop computes the overlay of one layer's labels onto the labels below |
| Router.Macropadd.constructor | main.py:15-20 | no active layers, an empty table and a last encoder reading of 0 |
| Router.Macropadd.SetLayers | main.py:22-27 | the table is replaced and the active stack becomes a single fresh default layer |
| Router.Macropadd.HandleKeyEvent | main.py:48-53 | a key press is dispatched down the active stack |
| Router.Macropadd.HandleEncoderInc | main.py:55-60 | an increment is dispatched down the active stack |
| Router.Macropadd.HandleEncoderDec | main.py:62-67 | a decrement is dispatched down the active stack |
| Router.Macropadd.HandleEncoderButton | main.py:78-83 | a button press is dispatched down the active stack |
| Router.Macropadd.HandleEncoderEvent | main.py:69-76 | one increment if the reading rose, else one decrement; the reading is stored unless the action raised; the stack is unchanged |
| Router.Macropadd.HandleProcessChange | main.py:85-118 | for a path, the stack becomes the focus stack for the program, the profile update is appended to the queue, and its exception is returned; for a missing path (None), TypeError is raised and neither the stack nor the queue changes |
| Router.PopToBaseLayer | main.py:86-90 | the pop loop computes the popped stack |
| Router.FindApplicationLayer | main.py:95-100 | the table loop finds the first layer for the process |
| Router.NewStack | main.py:86-102 | pop, then push the program's layer, computing the focus stack |
| Router.SendProfileUpdate | main.py:106-118 | the queue grows by exactly the profile update's messages, the update's exception is returned, and the layers are unchanged |
| Router.SendRecords | main.py:107-118 | sends the profile record, then the key-names record, stopping at the first exception |
| Router.OverlaidLabels | main.py:110-116 | the merge over the whole stack computes the overlay of every layer's labels |
| Router.ReloadThenFocusLosesDefault | main.py:22-27 | after a reload with a base layer other than the default one, a focus change to a program no layer is bound to empties the stack, and every key goes unhandled |
| Router.FocusWithoutBaseOnlyGrows | main.py:87-97 | without a base layer a focus change only pushes |
| Router.FocusAllWithoutBaseGrows | main.py:85-102 | without a base layer the stack grows by one on every focus change that finds a layer |
| Router.IntendedReload | main.py:22-27 | the intended reload leaves the default layer and, if present, the base layer |
| Router.IntendedReloadWellFormed | main.py:22-27 | the intended reload gives a well-formed stack |
| Router.IntendedFocusKeepsShape | main.py:85-102 | the intended focus change keeps the stack well formed: default, base, then at most the program's layer |
| Router.IntendedFocusBounded | main.py:85-102 | the intended focus change leaves at most one layer above the default and base layers |
| Router.WellFormedStackHandlesEveryKey | main.py:48-53 | on a well-formed stack every valid key is handled |
| Router.EncoderDelta | main.py:69-76 | the signed 8-bit step count between two readings, in -128..127, that carries the old reading to the new one modulo 256 |
| Router.EncoderDeltaUnique | main.py:69-76 | that step count is the only one in range |
| Router.IntendedEncoderEvents | main.py:69-76 | one event per step, in the direction of the step count |
| Router.DirectionAgreesAwayFromWrap | main.py:70-74 | away from the wrap-around the code's single event has the intended direction |
| Router.WrapTurnsBackwards | main.py:70-74 | across the wrap-around the code's event points the wrong way (250 to 10 gives a decrement, where sixteen increments are meant); an unchanged reading gives a decrement |
| Router.EncoderDirection | main.py:70-74 | (definition) an increment when the reading rose, a decrement otherwise, including when it did not change |
| Macros.NameOf | macros.py:116-118 | the name is `spec['name']` when it is present and a string, `''` otherwise |
| Macros.ParseAction | macros.py:111-136 | a non-mapping gives None, and the only exception is TypeError |
| Macros.ParseActionOrder | macros.py:120-136 | the first present key among hotkey, type, activateWindow and sequence decides the variant; a mapping with none of them gives None |
| Macros.ParseStepValues | macros.py:127-129 | a non-iterable sequence raises TypeError |
| Macros.ParseSteps | macros.py:129-133 | parsing steps raises only TypeError |
| Macros.ParseEach | macros.py:129-130 | one outcome per step, each parsed as an action |
| Macros.CollectRaisesOnlyTypeError | macros.py:129-133 | the step loop raises only the steps' TypeError |
| Macros.CollectAllParsed | macros.py:129-134 | the sequence is built exactly when every step parses, and then it holds them in order |
| Macros.CollectSnoc | macros.py:129-133 | one loop step appends the parsed step or stops |
| Macros.CollectStopsAtFailure | macros.py:131-132 | after a step gives None or raises, later steps do not matter |
| Macros.ParseStepsAllParsed | macros.py:129-134 | the sequence is parsed exactly when every step is, with the steps in order |
| Macros.ParseStepsFirstFailure | macros.py:130-132 | the first unparsable step decides the result |
| Macros.CollectFirstFailure | macros.py:130-132 | the first failing outcome decides the result |
| Macros.StepValuesCollect | macros.py:127-133 | parsing the steps value is the step loop over its iteration |
| Macros.ParseSequence | macros.py:126-134 | the loop computes the sequence parser's result |
| Macros.RunAction | macros.py:27-71 | running an action produces exactly the specified trace |
| Macros.Exec | macros.py:27-71 | (definition) one key press, one typed text, one focus of the program, or the steps of a sequence |
| Macros.ExecSteps | macros.py:49-52 | (definition) for each step in turn a 10 ms sleep, then the step |
| Macros.RunsAsActionPyDoes | macros.py:27-52 | an action that activates no window runs as the action.py action with a 10 ms step delay does |
| Macros.StepsRunAsActionPyDoes | macros.py:49-52 | a sequence runs as action.py's with a 10 ms delay |
| Macros.UnrecognisedIsNotAnError | macros.py:136 | a mapping with no known key gives None here, where action.py raises ValueError |
| Macros.BareListSequenceRejectedByActionPy | macros.py:126-129 | a sequence written as a bare list is accepted here but raises TypeError in action.py |
| Macros.SimpleVariantsAgree | macros.py:116-125 | hotkey, type and activateWindow records with a string name parse to the same action in both versions |
| Macros.Layer.constructor | macros.py:76-82 | a new layer has its name and no bindings |
| Macros.Layer.FromSpecDict | macros.py:91-108 | builds the layer the layer parser describes, or raises its exception |
| Macros.Layer.GetKeyNames | macros.py:138-145 | one label per valid key: the bound action's name, or None |
| Macros.Layer.RunActionForKey | macros.py:147-154 | handles the key exactly when it is bound, running its action |
| Macros.Layer.RunActionForEncoderInc | macros.py:156-161 | runs the increment binding if there is one |
| Macros.Layer.RunActionForEncoderDec | macros.py:163-168 | runs the decrement binding if there is one |
| Macros.Layer.RunActionForEncoderBtn | macros.py:170-175 | runs the button binding if there is one |
| Macros.RunBinding | macros.py:156-161 | handled exactly when a binding exists, which then runs |
| Macros.RunOptional | macros.py:156-175 | the shared body of the encoder methods meets the binding specification |
| Macros.KeyLabels | macros.py:138-145 | twelve labels; label i is present exactly when key i is bound, and is then the action's name |
| Macros.LayerFromSpec | macros.py:91-108 | a non-mapping raises TypeError, a missing name raises KeyError, and no encoder is ever bound |
| Macros.BindKeysSnoc | macros.py:97-106 | one loop step: invalid keys and None actions are skipped, an exception ends the loop, and otherwise the key is bound |
| Macros.BindKeysStopsAtFailure | macros.py:101 | once an action raises, later entries do not matter |
| Macros.BindKeysContents | macros.py:97-106 | a key is bound exactly when it is valid, present and parses to an action, and it is bound to that action |
| Macros.CreateDefaultLayer | macros.py:178-183 | a fresh default layer binding every valid key to its own hotkey |
| Macros.DefaultBindingsStep | macros.py:180-182 | each iteration binds one more key to its own hotkey |
| Macros.DefaultLayerBindsEveryKey | macros.py:178-183 | the default layer binds exactly the valid keys, each to its own hotkey, and labels each key with its name |

## Left out

- keys.py is not part of this model. `VALID_KEY_NAMES` is taken to be F13..F24 in order, the keys the default layer and the hotkey registration use.
- hal.py:29 leaves the HID read thread commented out, so the shipped program never reads an encoder report. `DeviceBridge.DispatchReport` and `Router.Macropadd.HandleEncoderEvent` model what would happen if the thread ran; in the shipped program, nothing reaches them.
- Threads, the HID read and send loops, device enumeration and `dev.write` are left out. The model ends at the message queue and at the parsed encoder report.
- Reading the layers file (`open` and `yaml.safe_load` / `yaml.load`) is left out. `Layers.ParseLayers` takes the loaded document, and `Layers.LayerFileHandler.OnModified` takes the outcome of loading it. macros.py's `parse_layers` differs from layer.py's only in the loader, so it has no separate member.
- Time is integer milliseconds. The fractional seconds passed to `time.sleep` and returned by `time.time()` are not modelled, and `time.time()` is a parameter. The limits of `float()` (`Actions.FloatLimit`) and of `time.sleep` (`Actions.MaxSleepMs`) are modelled for whole-millisecond delays. A run records only that it raised, not whether it raised ValueError or OverflowError.
- A YAML integer of more than 4300 digits makes loading the file raise. Loading is left out, so `Value` admits such integers.
- YAML floats, timestamps, dates and binary values are not in `Value`. In the source, `int()` truncates a float `count` or `delayMs`, `f'{x:4.4}'` formats a float label (`2.5` gives `' 2.5'`), and a float profile name raises TypeError. None of these cases is modelled.
- Only string keys appear in configuration mappings. Underscores and non-ASCII digits in `int()` numerals are not modelled.
- The basename follows `os.path.basename` on Windows in CPython 3.11 (`ntpath.splitdrive`): separators `/` and `\`, and a drive prefix made of the first two characters of any path whose second character is `:`. UNC drives (`\\server\share`) are left out: a path that is only a UNC drive has an empty basename in Python, but the model gives the share name.
- Actions.ActivationBringsToFront: errors raised by `os.startfile` and by the win32 calls are not modelled. The window manager's answers are fixed for the duration of a run (`Host`).
- `keyboard.send` and `keyboard.write` are assumed to return. Their effects are recorded, not executed.
- In macros.py, window activation through pywinauto is one abstract `FocusProgram` effect. The pywinauto import in the constructor is not modelled.
- `Macropadd.run`, the program's entry point, the tray icon (trayicon.py), the win32 wrappers (win32utils.py) and the focus listener (active_window.py) are left out. The focus listener is what calls `HandleProcessChange`.
- Layers.Layer.constructor: the layer's `application` is a constructor argument rather than a field assigned after construction. `from_spec_dict` sets it before the layer escapes, so no caller can tell the difference.
- Router.Macropadd.HandleEncoderButton: the `layers` argument is ignored, as in the source. The method is never registered as a handler.
- `run` loads the table but builds no active stack, so the stack stays empty until the first reload or focus change. `run` itself is left out; the constructor's empty stack is where the model starts.
- Router.SendProfileUpdate: the merged labels are computed before the profile record is sent, whereas the source computes them after. Both are pure, so the order of the queued messages is the same.
- The key-label loop of `send_key_names` is the separate method `DeviceBridge.FormatFields`, which `DeviceBridge.Hal.SendKeyNames` calls.

## Findings

| source | as written | input that shows it | evidently intended | confidence | as-written member | corrected member |
|---|---|---|---|---|---|---|
| main.py:24-27 | `set_layers` appends the base layer to the old stack and then replaces that stack with `[default]`, so the base layer is dropped | a table with a `base` layer and no layer for the focused program: after a reload, the next focus change pops every layer (the base is not on the stack) and every key goes unhandled | the new stack is `[default, base]` | not executed | Router.Macropadd.SetLayers, Router.ReloadThenFocusLosesDefault | Router.IntendedReload, Router.IntendedReloadWellFormed, Router.WellFormedStackHandlesEveryKey |
| main.py:87-97 | with no `base` layer nothing is ever popped, so each focus change with a matching layer pushes one more layer | a table without `base` and focus changes among n programs that have layers: the stack grows by n | the stack stays default, base, then at most one program layer | not executed | Router.FocusWithoutBaseOnlyGrows, Router.FocusAllWithoutBaseGrows | Router.IntendedFocusKeepsShape, Router.IntendedFocusBounded |
| main.py:70-74 | the encoder direction is one `<` comparison of raw 8-bit readings | readings 250 then 10: the knob turned sixteen steps forward, but the code emits one decrement (reachable only once the HID read thread, commented out at hal.py:29, is started) | one event per signed 8-bit step, in the direction of the step | not executed | Router.WrapTurnsBackwards, Router.Macropadd.HandleEncoderEvent | Router.IntendedEncoderEvents, Router.EncoderDeltaUnique, Router.DirectionAgreesAwayFromWrap |
