/** hal.py: the wire records the daemon sends to the keypad's display (the
    profile name and the twelve key labels), the encoder reports it reads
    back, and the outbound message queue. */
module DeviceBridge {
  import opened Yaml

  type Byte = b: int | 0 <= b < 256

  const ProfileRecordType: Byte := 3
  const KeyNamesRecordType: Byte := 4
  const EncoderReportTag: Byte := 2

  /** Width of the profile-name field, and of one key-label field. */
  const NameWidth := 8
  const LabelWidth := 4
  const KeyCount := 12

  predicate IsAscii(c: char)
  {
    c as int < 128
  }

  /** `s.encode('ascii', errors='ignore')`: the ASCII characters of `s`, in
      order, as bytes; every other character is dropped. */
  function AsciiBytes(s: string): (r: seq<Byte>)
    ensures |r| <= |s|
    ensures (forall i :: 0 <= i < |s| ==> IsAscii(s[i])) ==>
      |r| == |s| && forall i :: 0 <= i < |s| ==> r[i] == s[i] as int
  {
    if s == [] then []
    else (if IsAscii(s[0]) then [s[0] as int as Byte] else []) + AsciiBytes(s[1..])
  }

  /** `s[:n]` */
  function Prefix(s: string, n: nat): (r: string)
    ensures |r| == if |s| < n then |s| else n
    ensures r == s[..|r|]
  {
    if |s| < n then s else s[..n]
  }

  function Zeros(n: nat): (r: seq<Byte>)
    ensures |r| == n && forall i :: 0 <= i < n ==> r[i] == 0
  {
    seq(n, _ => 0)
  }

  // ---------------------------------------------------------------------
  // The profile-name record
  // ---------------------------------------------------------------------

  /** send_profile_name's record for a name: the type byte, the ASCII
      characters among the first eight of the name, and zero padding to
      nine bytes. A name that is not a string cannot be sliced and encoded:
      `None`, booleans, integers and mappings raise TypeError, a list
      AttributeError. */
  function ProfileRecord(name: Value): (r: Result<seq<Byte>>)
    ensures r.Ok? <==> name.Str?
    ensures r.Ok? ==>
      var field := AsciiBytes(Prefix(name.s, NameWidth));
      && |r.value| == 1 + NameWidth
      && r.value[0] == ProfileRecordType
      && r.value[1..1 + |field|] == field
      && forall i :: 1 + |field| <= i < |r.value| ==> r.value[i] == 0
    ensures r.Raise? ==> r.error == (if name.List? then AttributeError else TypeError)
  {
    match name
    case Str(s) =>
      var data := [ProfileRecordType] + AsciiBytes(Prefix(s, NameWidth));
      Ok(data + Zeros(1 + NameWidth - |data|))
    case List(_) => Raise(AttributeError)
    case _ => Raise(TypeError)
  }

  /** The name a display reads back from a profile record: the bytes after
      the type byte up to the first zero. */
  function ProfileNameOf(record: seq<Byte>): string
    requires |record| >= 1
  {
    UntilZero(record[1..])
  }

  function UntilZero(bytes: seq<Byte>): (s: string)
    ensures |s| <= |bytes|
  {
    if bytes == [] || bytes[0] == 0 then [] else [bytes[0] as char] + UntilZero(bytes[1..])
  }

  /** The display shows the first eight characters of an ASCII name that
      contains no NUL: the record loses nothing else. */
  lemma ProfileRecordRoundTrip(s: string)
    requires forall i :: 0 <= i < |s| ==> IsAscii(s[i]) && s[i] != '\0'
    ensures ProfileRecord(Str(s)).Ok?
    ensures ProfileNameOf(ProfileRecord(Str(s)).value) == Prefix(s, NameWidth)
  {
    var p := Prefix(s, NameWidth);
    var record := ProfileRecord(Str(s)).value;
    var field := AsciiBytes(p);
    assert record[1..] == field + Zeros(NameWidth - |field|);
    UntilZeroOfText(p, NameWidth - |field|);
  }

  lemma {:induction false} UntilZeroOfText(p: string, pad: nat)
    requires forall i :: 0 <= i < |p| ==> IsAscii(p[i]) && p[i] != '\0'
    ensures UntilZero(AsciiBytes(p) + Zeros(pad)) == p
  {
    if p == [] {
      assert AsciiBytes(p) + Zeros(pad) == Zeros(pad);
    } else {
      UntilZeroOfText(p[1..], pad);
      assert AsciiBytes(p) + Zeros(pad) == [p[0] as int as Byte] + (AsciiBytes(p[1..]) + Zeros(pad));
    }
  }

  // ---------------------------------------------------------------------
  // The key-label record
  // ---------------------------------------------------------------------

  /** `names[8:] + names[4:8] + names[:4]`: the bottom row of labels first,
      as the display's wire order expects. */
  function Reorder<T>(names: seq<T>): (r: seq<T>)
    ensures |r| == |names|
  {
    if |names| <= 4 then names
    else if |names| <= 8 then names[4..] + names[..4]
    else names[8..] + names[4..8] + names[..4]
  }

  /** Where label `j` of the wire order comes from among twelve labels in
      logical order: the rows of four are reversed. */
  function WireIndex(j: nat): (i: nat)
    requires j < KeyCount
    ensures i < KeyCount
  {
    if j < 4 then j + 8 else if j < 8 then j else j - 8
  }

  /** On twelve labels the reordering reverses the three rows (the middle
      row stays), and reordering twice gives the labels back. */
  lemma ReorderTwelve<T>(names: seq<T>)
    requires |names| == KeyCount
    ensures forall j :: 0 <= j < KeyCount ==> Reorder(names)[j] == names[WireIndex(j)]
    ensures forall j :: 0 <= j < KeyCount ==> WireIndex(WireIndex(j)) == j
    ensures Reorder(Reorder(names)) == names
  {
    var r := Reorder(names);
    assert r == names[8..] + names[4..8] + names[..4];
    assert Reorder(r) == r[8..] + r[4..8] + r[..4];
  }

  /** `f'{n:4.4}'` for a string: cut to four characters, then padded with
      spaces to four. */
  function Fit(s: string): (r: string)
    ensures |r| == LabelWidth
    ensures r[..|Prefix(s, LabelWidth)|] == Prefix(s, LabelWidth)
    ensures forall i :: |Prefix(s, LabelWidth)| <= i < LabelWidth ==> r[i] == ' '
  {
    var p := Prefix(s, LabelWidth);
    p + seq(LabelWidth - |p|, _ => ' ')
  }

  /** One label field: a `None` label is four spaces; a string is fitted to
      four characters and ASCII-encoded (so a non-ASCII character leaves
      the field short); a number or boolean rejects the `4.4` format with
      ValueError and a list or mapping with TypeError. */
  function LabelField(keyLabel: Value): (r: Result<seq<Byte>>)
    ensures r.Ok? <==> keyLabel.Null? || keyLabel.Str?
    ensures keyLabel.Null? ==> r == Ok(AsciiBytes("    "))
    ensures keyLabel.Str? ==> r == Ok(AsciiBytes(Fit(keyLabel.s)))
    ensures r.Raise? ==> r.error == (if keyLabel.Int? || keyLabel.Bool? then ValueError else TypeError)
  {
    match keyLabel
    case Null => Ok(AsciiBytes("    "))
    case Str(s) => Ok(AsciiBytes(Fit(s)))
    case Int(_) => Raise(ValueError)
    case Bool(_) => Raise(ValueError)
    case _ => Raise(TypeError)
  }

  /** The fields of `labels`, concatenated in order, or the error of the
      first label that has no field. */
  function Fields(labels: seq<Value>): Result<seq<Byte>>
  {
    Join(FieldEach(labels))
  }

  /** Every label's field, formatted on its own. */
  function FieldEach(labels: seq<Value>): (fs: seq<Result<seq<Byte>>>)
    ensures |fs| == |labels|
    ensures forall i :: 0 <= i < |labels| ==> fs[i] == LabelField(labels[i])
  {
    seq(|labels|, i requires 0 <= i < |labels| => LabelField(labels[i]))
  }

  /** The loop of send_key_names over formatted fields `fs`: each field is
      appended, and an exception ends the loop. */
  function Join(fs: seq<Result<seq<Byte>>>): Result<seq<Byte>>
  {
    if fs == [] then Ok([])
    else
      var n := |fs| - 1;
      match Join(fs[..n])
      case Raise(e) => Raise(e)
      case Ok(data) =>
        match fs[n]
        case Raise(e) => Raise(e)
        case Ok(f) => Ok(data + f)
  }

  /** send_key_names' record: the labels in wire order must be twelve
      (AssertionError otherwise), every label must have a field, and the
      record must come to 49 bytes (AssertionError otherwise). */
  function KeyNamesRecord(labels: seq<Value>): Result<seq<Byte>>
  {
    var ordered := Reorder(labels);
    if |ordered| != KeyCount then Raise(AssertionError)
    else match Fields(ordered)
      case Raise(e) => Raise(e)
      case Ok(fields) =>
        var data := [KeyNamesRecordType] + fields;
        if |data| != 1 + LabelWidth * KeyCount then Raise(AssertionError) else Ok(data)
  }

  /** A label the record can carry in full: `None`, or a string whose first
      four characters are ASCII. */
  predicate Printable(keyLabel: Value)
  {
    keyLabel.Null? || (keyLabel.Str? && forall i :: 0 <= i < |Prefix(keyLabel.s, LabelWidth)| ==> IsAscii(keyLabel.s[i]))
  }

  /** The field of a printable label is exactly four bytes. */
  lemma PrintableField(keyLabel: Value)
    requires Printable(keyLabel)
    ensures LabelField(keyLabel).Ok? && |LabelField(keyLabel).value| == LabelWidth
  {
    if keyLabel.Str? {
      var f := Fit(keyLabel.s);
      var p := Prefix(keyLabel.s, LabelWidth);
      forall i | 0 <= i < |f| ensures IsAscii(f[i]) {
        if i < |p| { assert f[i] == p[i] == keyLabel.s[i]; }
      }
    } else {
      assert AsciiBytes("    ") == [32, 32, 32, 32];
    }
  }

  /** With twelve printable labels the record is 49 bytes: the type byte 4,
      then one four-byte field per label, bottom row first. */
  lemma KeyNamesRecordLayout(labels: seq<Value>)
    requires |labels| == KeyCount && forall i :: 0 <= i < KeyCount ==> Printable(labels[i])
    ensures KeyNamesRecord(labels).Ok?
    ensures var data := KeyNamesRecord(labels).value;
      && |data| == 1 + LabelWidth * KeyCount
      && data[0] == KeyNamesRecordType
      && forall j :: 0 <= j < KeyCount ==>
           Ok(data[1 + LabelWidth * j .. 1 + LabelWidth * (j + 1)]) == LabelField(labels[WireIndex(j)])
  {
    ReorderTwelve(labels);
    var ordered := Reorder(labels);
    FieldsOfPrintable(ordered);
    var fields := Fields(ordered).value;
    assert KeyNamesRecord(labels) == Ok([KeyNamesRecordType] + fields);
    forall j | 0 <= j < KeyCount
      ensures Ok(fields[LabelWidth * j .. LabelWidth * (j + 1)]) == LabelField(labels[WireIndex(j)])
    {
      assert ordered[j] == labels[WireIndex(j)];
    }
    TypeByteShiftsFields(fields);
  }

  /** Behind the type byte, field `j` starts at byte 4j+1. */
  lemma TypeByteShiftsFields(fields: seq<Byte>)
    requires |fields| == LabelWidth * KeyCount
    ensures forall j :: 0 <= j < KeyCount ==>
      ([KeyNamesRecordType] + fields)[1 + LabelWidth * j .. 1 + LabelWidth * (j + 1)] == fields[LabelWidth * j .. LabelWidth * (j + 1)]
  {
    var data := [KeyNamesRecordType] + fields;
    forall j | 0 <= j < KeyCount
      ensures data[1 + LabelWidth * j .. 1 + LabelWidth * (j + 1)] == fields[LabelWidth * j .. LabelWidth * (j + 1)]
    {
      assert data[1..] == fields;
    }
  }

  /** One turn of the loop of send_key_names. */
  lemma JoinSnoc(fs: seq<Result<seq<Byte>>>, i: nat)
    requires i < |fs|
    ensures Join(fs[..i + 1]) ==
      match Join(fs[..i])
      case Raise(e) => Raise(e)
      case Ok(data) =>
        match fs[i]
        case Raise(e) => Raise(e)
        case Ok(f) => Ok(data + f)
  {
    assert fs[..i + 1][..i] == fs[..i];
  }

  lemma {:induction false} JoinStopsAtFailure(fs: seq<Result<seq<Byte>>>, i: nat)
    requires i <= |fs| && Join(fs[..i]).Raise?
    ensures Join(fs) == Join(fs[..i])
    decreases |fs| - i
  {
    if i < |fs| {
      JoinSnoc(fs, i);
      JoinStopsAtFailure(fs, i + 1);
    } else {
      assert fs[..i] == fs;
    }
  }

  /** Fields of four bytes each are laid end to end: field `j` occupies
      bytes 4j to 4j+4. */
  lemma {:induction false} JoinFixedWidth(fs: seq<Result<seq<Byte>>>)
    requires forall i :: 0 <= i < |fs| ==> fs[i].Ok? && |fs[i].value| == LabelWidth
    ensures Join(fs).Ok?
    ensures |Join(fs).value| == LabelWidth * |fs|
    ensures forall j :: 0 <= j < |fs| ==>
      Join(fs).value[LabelWidth * j .. LabelWidth * (j + 1)] == fs[j].value
  {
    if fs != [] {
      var n := |fs| - 1;
      var init := fs[..n];
      assert forall i :: 0 <= i < n ==> init[i] == fs[i];
      JoinFixedWidth(init);
      var before := Join(init).value;
      var f := fs[n].value;
      assert Join(fs) == Ok(before + f);
      forall j | 0 <= j < |fs|
        ensures (before + f)[LabelWidth * j .. LabelWidth * (j + 1)] == fs[j].value
      {
        if j < n {
          assert init[j] == fs[j];
          assert LabelWidth * (j + 1) <= LabelWidth * n;
          assert (before + f)[LabelWidth * j .. LabelWidth * (j + 1)] == before[LabelWidth * j .. LabelWidth * (j + 1)];
        } else {
          assert (before + f)[LabelWidth * j .. LabelWidth * (j + 1)] == f;
        }
      }
    }
  }

  /** Printable labels have four-byte fields laid end to end. */
  lemma FieldsOfPrintable(labels: seq<Value>)
    requires forall i :: 0 <= i < |labels| ==> Printable(labels[i])
    ensures Fields(labels).Ok?
    ensures |Fields(labels).value| == LabelWidth * |labels|
    ensures forall j :: 0 <= j < |labels| ==>
      Ok(Fields(labels).value[LabelWidth * j .. LabelWidth * (j + 1)]) == LabelField(labels[j])
  {
    var fs := FieldEach(labels);
    forall i | 0 <= i < |labels| ensures fs[i].Ok? && |fs[i].value| == LabelWidth {
      PrintableField(labels[i]);
    }
    JoinFixedWidth(fs);
  }

  /** As written, a label with a non-ASCII character among its first four
      loses a byte to the encoding, so the length check fails and no
      record is sent. */
  lemma NonAsciiLabelRejected(labels: seq<Value>, k: nat, c: nat)
    requires |labels| == KeyCount && k < KeyCount
    requires forall i :: 0 <= i < KeyCount ==> labels[i].Null? || labels[i].Str?
    requires labels[k].Str? && c < LabelWidth && c < |labels[k].s| && !IsAscii(labels[k].s[c])
    ensures KeyNamesRecord(labels) == Raise(AssertionError)
  {
    ReorderTwelve(labels);
    var ordered := Reorder(labels);
    assert ordered[WireIndex(k)] == labels[k];
    FieldsShort(ordered, WireIndex(k), c);
  }

  /** Fields never exceed four bytes; the field of a label with a non-ASCII
      character among its first four is shorter. */
  lemma FieldsShort(labels: seq<Value>, j: nat, c: nat)
    requires j < |labels|
    requires forall i :: 0 <= i < |labels| ==> labels[i].Null? || labels[i].Str?
    requires labels[j].Str? && c < LabelWidth && c < |labels[j].s| && !IsAscii(labels[j].s[c])
    ensures Fields(labels).Ok? && |Fields(labels).value| < LabelWidth * |labels|
  {
    var fs := FieldEach(labels);
    var s := Fit(labels[j].s);
    assert s[c] == labels[j].s[c];
    AsciiBytesDrops(s, c);
    JoinShort(fs, j);
  }

  /** Encoding drops a non-ASCII character, so the bytes are fewer than the
      characters. */
  lemma {:induction false} AsciiBytesDrops(s: string, c: nat)
    requires c < |s| && !IsAscii(s[c])
    ensures |AsciiBytes(s)| < |s|
  {
    if c > 0 {
      AsciiBytesDrops(s[1..], c - 1);
    }
  }

  /** Fields of at most four bytes, one of them shorter, join to fewer than
      four bytes per field. */
  lemma {:induction false} JoinShort(fs: seq<Result<seq<Byte>>>, j: nat)
    requires j < |fs|
    requires forall i :: 0 <= i < |fs| ==> fs[i].Ok? && |fs[i].value| <= LabelWidth
    requires |fs[j].value| < LabelWidth
    ensures Join(fs).Ok? && |Join(fs).value| < LabelWidth * |fs|
  {
    var n := |fs| - 1;
    var init := fs[..n];
    assert forall i :: 0 <= i < n ==> init[i] == fs[i];
    if j == n {
      JoinBounded(init);
    } else {
      JoinShort(init, j);
    }
    assert Join(fs) == Ok(Join(init).value + fs[n].value);
  }

  lemma {:induction false} JoinBounded(fs: seq<Result<seq<Byte>>>)
    requires forall i :: 0 <= i < |fs| ==> fs[i].Ok? && |fs[i].value| <= LabelWidth
    ensures Join(fs).Ok? && |Join(fs).value| <= LabelWidth * |fs|
  {
    if fs != [] {
      var n := |fs| - 1;
      var init := fs[..n];
      assert forall i :: 0 <= i < n ==> init[i] == fs[i];
      JoinBounded(init);
      assert Join(fs) == Ok(Join(init).value + fs[n].value);
    }
  }

  // ---------------------------------------------------------------------
  // Encoder reports
  // ---------------------------------------------------------------------

  /** A decoded encoder report: the 8-bit rotation counter and whether the
      button is down. */
  datatype EncoderReport = EncoderReport(rotation: Byte, pressed: bool)

  /** Hal.__parse_encoder_hid_data: only a three-byte report tagged 2 is an
      encoder report; any other yields (None, None). */
  function ParseEncoderReport(data: seq<Byte>): (r: Option<EncoderReport>)
    ensures r.Some? <==> |data| == 3 && data[0] == EncoderReportTag
    ensures r.Some? ==> r.value == EncoderReport(data[1], data[2] != 0)
  {
    if |data| == 3 && data[0] == EncoderReportTag then Some(EncoderReport(data[1], data[2] != 0)) else None
  }

  /** What the keypad sends for a report. */
  function EncodeEncoderReport(report: EncoderReport): seq<Byte>
  {
    [EncoderReportTag, report.rotation, if report.pressed then 1 else 0]
  }

  /** Every report the keypad sends decodes to itself. */
  lemma EncoderReportRoundTrip(report: EncoderReport)
    ensures ParseEncoderReport(EncodeEncoderReport(report)) == Some(report)
  {
  }

  /** The handlers an inbound report reaches. */
  datatype Callback = RotationCallback(rotation: Byte) | ButtonCallback(pressed: bool)

  /** The dispatch in the read loop: an empty read does nothing; a report
      that parses reaches the rotation handler, then the button handler,
      each only if it is set. */
  function DispatchReport(data: seq<Byte>, hasEncoderHandler: bool, hasButtonHandler: bool): (calls: seq<Callback>)
    ensures |calls| <= 2
    ensures calls != [] ==> ParseEncoderReport(data).Some?
    ensures ParseEncoderReport(data).Some? ==>
      var rep := ParseEncoderReport(data).value;
      calls == (if hasEncoderHandler then [RotationCallback(rep.rotation)] else [])
            + (if hasButtonHandler then [ButtonCallback(rep.pressed)] else [])
  {
    if data == [] then []
    else match ParseEncoderReport(data)
      case None => []
      case Some(rep) =>
        (if hasEncoderHandler then [RotationCallback(rep.rotation)] else [])
        + (if hasButtonHandler then [ButtonCallback(rep.pressed)] else [])
  }

  // ---------------------------------------------------------------------
  // The device object
  // ---------------------------------------------------------------------

  /** Hal, reduced to its outbound queue: an unbounded FIFO whose contents
      are the records not yet written to the device. */
  class Hal {
    var msgQueue: seq<seq<Byte>>

    constructor()
      ensures msgQueue == []
    {
      msgQueue := [];
    }

    /** Hal.send_profile_name: enqueues the profile record, or raises and
        enqueues nothing. */
    method SendProfileName(name: Value) returns (raised: Option<Error>)
      modifies this
      ensures ProfileRecord(name).Ok? ==> raised.None? && msgQueue == old(msgQueue) + [ProfileRecord(name).value]
      ensures ProfileRecord(name).Raise? ==> raised == Some(ProfileRecord(name).error) && msgQueue == old(msgQueue)
    {
      if !name.Str? {
        return Some(if name.List? then AttributeError else TypeError);
      }
      var data := [ProfileRecordType] + AsciiBytes(Prefix(name.s, NameWidth));
      if |data| < 1 + NameWidth {
        data := data + Zeros(1 + NameWidth - |data|);
      } else {
        assert data + Zeros(0) == data;
      }
      msgQueue := msgQueue + [data];
      return None;
    }

    /** Hal.send_key_names: enqueues the key-label record, or raises and
        enqueues nothing. */
    method SendKeyNames(keyNames: seq<Value>) returns (raised: Option<Error>)
      modifies this
      ensures KeyNamesRecord(keyNames).Ok? ==> raised.None? && msgQueue == old(msgQueue) + [KeyNamesRecord(keyNames).value]
      ensures KeyNamesRecord(keyNames).Raise? ==> raised == Some(KeyNamesRecord(keyNames).error) && msgQueue == old(msgQueue)
    {
      var ordered := Reorder(keyNames);
      if |ordered| != KeyCount {
        return Some(AssertionError);
      }
      var fields := FormatFields(ordered);
      if fields.Raise? {
        return Some(fields.error);
      }
      var data := [KeyNamesRecordType] + fields.value;
      if |data| != 1 + LabelWidth * KeyCount {
        return Some(AssertionError);
      }
      msgQueue := msgQueue + [data];
      return None;
    }
  }

  /** The loop of send_key_names over the reordered labels, appending
      each label's field to the record. */
  method FormatFields(labels: seq<Value>) returns (r: Result<seq<Byte>>)
    ensures r == Fields(labels)
  {
    ghost var fs := FieldEach(labels);
    var data: seq<Byte> := [];
    for i := 0 to |labels|
      invariant Join(fs[..i]) == Ok(data)
    {
      JoinSnoc(fs, i);
      var field := LabelField(labels[i]);
      assert fs[i] == field;
      if field.Raise? {
        JoinStopsAtFailure(fs, i + 1);
        return Raise(field.error);
      }
      data := data + field.value;
    }
    assert fs[..|labels|] == fs;
    return Ok(data);
  }
}
