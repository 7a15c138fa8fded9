/**
 * The export dialog of lapogen: it packs the four measurement lists into a
 * compact tuple form (`u1` to `u4`) carried in the fragment of a share URL,
 * writes one list as CSV, and counts the points.
 */
module ExportDialog {
  import opened Wrappers
  import opened ArrayOps
  import VA = VACharacteristic
  import Angle = AngleCharacteristic
  import Frequency = FrequencyCharacteristic
  import Lux = LuxAmper
  import Base64Url

  /** The application state handed to the dialog. */
  datatype AppData = AppData(
    vaCharacteristic: seq<VA.VAData>,
    angleCharacteristic: seq<Angle.AngleData>,
    frequencyCharacteristic: seq<Frequency.FrequencyData>,
    luxAmper: seq<Lux.LuxAmperData>)

  // ---------------------------------------------------------------------------
  // Compact tuples
  // ---------------------------------------------------------------------------

  /** One JSON array of numbers; `None` is a missing property (`undefined`, written as `null`). */
  type Tuple = seq<Option<real>>

  /** The object handed to `JSON.stringify`. */
  datatype Compact = Compact(u1: seq<Tuple>, u2: seq<Tuple>, u3: seq<Tuple>, u4: seq<Tuple>, timestamp: string)

  function VATuple(p: VA.VAData): Tuple
  {
    [Some(p.current), Some(p.voltage)]
  }

  function AngleTuple(p: Angle.AngleData): Tuple
  {
    [Some(p.angle), Some(p.voltage), Some(p.amplitude)]
  }

  function FrequencyTuple(p: Frequency.FrequencyData): Tuple
  {
    [Some(p.frequency), Some(p.voltage), Some(p.amplitude)]
  }

  /** `[item.amplitude, item.voltage]` on a lux-ampere point, which has no `amplitude` field. */
  function LuxTupleAsWritten(p: Lux.LuxAmperData): Tuple
  {
    [None, Some(p.voltage)]
  }

  /** The lux-ampere tuple with the drive current, which the view stores in `current`. */
  function LuxTuple(p: Lux.LuxAmperData): Tuple
  {
    [Some(p.current), Some(p.voltage)]
  }

  /** Every entry of every tuple is a number: nothing is written as `null`. */
  predicate Complete(ts: seq<Tuple>)
  {
    forall i, j :: 0 <= i < |ts| && 0 <= j < |ts[i]| ==> ts[i][j].Some?
  }

  /** `xs.map(f)`: one result per item, in list order. */
  function Map<A, B>(xs: seq<A>, f: A -> B): (r: seq<B>)
    ensures |r| == |xs| && forall i :: 0 <= i < |xs| ==> r[i] == f(xs[i])
  {
    seq(|xs|, i requires 0 <= i < |xs| => f(xs[i]))
  }

  /** `serializeData` as written: the `u4` tuples read a property lux-ampere points do not have. */
  function SerializeAsWritten(data: AppData, timestamp: string): (c: Compact)
    ensures c.timestamp == timestamp
    ensures |c.u1| == |data.vaCharacteristic| && |c.u2| == |data.angleCharacteristic|
    ensures |c.u3| == |data.frequencyCharacteristic| && |c.u4| == |data.luxAmper|
    ensures Complete(c.u1) && Complete(c.u2) && Complete(c.u3)
    ensures forall i :: 0 <= i < |c.u4| ==> |c.u4[i]| == 2 && c.u4[i][0].None? && c.u4[i][1] == Some(data.luxAmper[i].voltage)
  {
    Compact(
      Map(data.vaCharacteristic, VATuple),
      Map(data.angleCharacteristic, AngleTuple),
      Map(data.frequencyCharacteristic, FrequencyTuple),
      Map(data.luxAmper, LuxTupleAsWritten),
      timestamp)
  }

  /** `serializeData` with the lux-ampere drive current in the first slot of `u4`. */
  function Serialize(data: AppData, timestamp: string): (c: Compact)
    ensures c.timestamp == timestamp
    ensures |c.u1| == |data.vaCharacteristic| && |c.u2| == |data.angleCharacteristic|
    ensures |c.u3| == |data.frequencyCharacteristic| && |c.u4| == |data.luxAmper|
    ensures Complete(c.u1) && Complete(c.u2) && Complete(c.u3) && Complete(c.u4)
  {
    Compact(
      Map(data.vaCharacteristic, VATuple),
      Map(data.angleCharacteristic, AngleTuple),
      Map(data.frequencyCharacteristic, FrequencyTuple),
      Map(data.luxAmper, LuxTuple),
      timestamp)
  }

  /**
   * Every `u4` tuple of the serializer as written starts with a missing
   * value, so two exports that differ only in their lux-ampere currents are
   * identical: the export loses the x axis of that measurement.
   */
  lemma AsWrittenLosesLuxCurrent(data: AppData, timestamp: string)
    ensures forall i :: 0 <= i < |SerializeAsWritten(data, timestamp).u4| ==>
      SerializeAsWritten(data, timestamp).u4[i][0].None?
    ensures var a := AppData([], [], [], [Lux.LuxAmperData(1000.0, 0.5)]);
      var b := AppData([], [], [], [Lux.LuxAmperData(2000.0, 0.5)]);
      a != b && SerializeAsWritten(a, timestamp) == SerializeAsWritten(b, timestamp)
  {
    var a := AppData([], [], [], [Lux.LuxAmperData(1000.0, 0.5)]);
    var b := AppData([], [], [], [Lux.LuxAmperData(2000.0, 0.5)]);
    assert a.luxAmper[0] != b.luxAmper[0];
    assert Map(a.luxAmper, LuxTupleAsWritten) == Map(b.luxAmper, LuxTupleAsWritten);
  }

  // Reading the tuples back, to show what the corrected form keeps.

  function DecodeVA(t: Tuple): Option<VA.VAData>
  {
    if |t| == 2 && t[0].Some? && t[1].Some? then Some(VA.VAData(t[0].value, t[1].value)) else None
  }

  function DecodeAngle(t: Tuple): Option<Angle.AngleData>
  {
    if |t| == 3 && t[0].Some? && t[1].Some? && t[2].Some? then Some(Angle.AngleData(t[0].value, t[1].value, t[2].value)) else None
  }

  /** Frequency tuples carry no identifier; it comes back empty. */
  function DecodeFrequency(t: Tuple): Option<Frequency.FrequencyData>
  {
    if |t| == 3 && t[0].Some? && t[1].Some? && t[2].Some? then Some(Frequency.FrequencyData("", t[0].value, t[1].value, t[2].value)) else None
  }

  function DecodeLux(t: Tuple): Option<Lux.LuxAmperData>
  {
    if |t| == 2 && t[0].Some? && t[1].Some? then Some(Lux.LuxAmperData(t[0].value, t[1].value)) else None
  }

  /** Decodes every tuple, failing when one of them fails. */
  function DecodeAll<T>(ts: seq<Tuple>, decode: Tuple -> Option<T>): Option<seq<T>>
  {
    if ts == [] then Some([])
    else match (decode(ts[0]), DecodeAll(ts[1..], decode))
      case (Some(x), Some(rest)) => Some([x] + rest)
      case _ => None
  }

  function Deserialize(c: Compact): Option<AppData>
  {
    match (DecodeAll(c.u1, DecodeVA), DecodeAll(c.u2, DecodeAngle), DecodeAll(c.u3, DecodeFrequency), DecodeAll(c.u4, DecodeLux))
    case (Some(a), Some(b), Some(f), Some(d)) => Some(AppData(a, b, f, d))
    case _ => None
  }

  /** Decoding the tuples of a list gives back the list, after `normal` forgets what the tuples do not hold. */
  lemma {:induction false} DecodeTuples<T>(xs: seq<T>, tuple: T -> Tuple, decode: Tuple -> Option<T>, normal: T -> T)
    requires forall x :: decode(tuple(x)) == Some(normal(x))
    ensures DecodeAll(Map(xs, tuple), decode) == Some(Map(xs, normal))
  {
    if xs != [] {
      DecodeTuples(xs[1..], tuple, decode, normal);
      assert Map(xs, tuple)[1..] == Map(xs[1..], tuple);
      assert Map(xs, normal) == [normal(xs[0])] + Map(xs[1..], normal);
    }
  }

  function Same<T>(x: T): T
  {
    x
  }

  lemma MapSame<T>(xs: seq<T>)
    ensures Map(xs, Same) == xs
  {
  }

  function BlankId(p: Frequency.FrequencyData): Frequency.FrequencyData
  {
    p.(id := "")
  }

  /** The frequency list with the identifiers blanked: what the compact form can carry. */
  function WithoutIds(fs: seq<Frequency.FrequencyData>): (r: seq<Frequency.FrequencyData>)
    ensures |r| == |fs|
    ensures forall i :: 0 <= i < |fs| ==> r[i] == fs[i].(id := "")
  {
    Map(fs, BlankId)
  }

  /**
   * The corrected compact form keeps every measured number: decoding it
   * gives back all four lists, in order, with only the frequency points'
   * generated identifiers left out.
   */
  lemma SerializeRoundTrip(data: AppData, timestamp: string)
    ensures Deserialize(Serialize(data, timestamp)) ==
      Some(data.(frequencyCharacteristic := WithoutIds(data.frequencyCharacteristic)))
  {
    DecodeTuples(data.vaCharacteristic, VATuple, DecodeVA, Same);
    DecodeTuples(data.angleCharacteristic, AngleTuple, DecodeAngle, Same);
    DecodeTuples(data.frequencyCharacteristic, FrequencyTuple, DecodeFrequency, BlankId);
    DecodeTuples(data.luxAmper, LuxTuple, DecodeLux, Same);
    MapSame(data.vaCharacteristic);
    MapSame(data.angleCharacteristic);
    MapSame(data.luxAmper);
  }

  // ---------------------------------------------------------------------------
  // Export URL
  // ---------------------------------------------------------------------------

  /** `href.split("#")[0]`: the address without its fragment. */
  function BeforeHash(href: string): string
  {
    Split(href, '#')[0]
  }

  /** `generateExportUrl`: the page address, the export route and the encoded payload. */
  function ExportUrl(href: string, dataString: string, utf8Encode: string -> seq<Base64Url.byte>): (u: string)
    ensures var a := BeforeHash(href);
      && |u| > |a| && u[..|a|] == a && u[|a|] == '#' && Lacks(a, '#')
  {
    FirstPieceLacks(href, '#');
    BeforeHash(href) + "#" + ("/export?data=" + Base64Url.EncodeJsonToBase64Url(dataString, utf8Encode))
  }

  /** The first piece of a split never holds the separator. */
  lemma {:induction false} FirstPieceLacks(s: string, sep: char)
    ensures Lacks(Split(s, sep)[0], sep)
  {
    if s != [] && s[0] != sep {
      FirstPieceLacks(s[1..], sep);
    }
  }

  /** The route and a base64url payload hold no '#'. */
  lemma FragmentLacksHash(bytes: seq<Base64Url.byte>)
    ensures Lacks("/export?data=" + Base64Url.ToBase64Url(bytes), '#')
  {
    var payload := Base64Url.ToBase64Url(bytes);
    Base64Url.ToBase64UrlAlphabet(bytes);
    var fragment := "/export?data=" + payload;
    forall i | 0 <= i < |fragment|
      ensures fragment[i] != '#'
    {
      if i >= 13 {
        assert fragment[i] == payload[i - 13];
        assert Base64Url.IsUrlChar(payload[i - 13]);
      }
    }
  }

  /** Two pieces without '#' joined by one '#' split back into those pieces. */
  lemma SplitAtHash(origin: string, fragment: string)
    requires Lacks(origin, '#') && Lacks(fragment, '#')
    ensures Split(origin + "#" + fragment, '#') == [origin, fragment]
  {
    assert origin + "#" + fragment == origin + ['#'] + fragment;
    SplitAfter(origin, fragment, '#');
    SplitWithout(fragment, '#');
  }

  /**
   * The export URL has exactly one '#': before it stands the page address
   * without its old fragment, after it the export route and the payload,
   * which decodes back to the bytes of the serialized data.
   */
  lemma ExportUrlCarriesPayload(href: string, dataString: string, utf8Encode: string -> seq<Base64Url.byte>)
    ensures var payload := Base64Url.EncodeJsonToBase64Url(dataString, utf8Encode);
      && Split(ExportUrl(href, dataString, utf8Encode), '#') == [BeforeHash(href), "/export?data=" + payload]
      && Base64Url.Atob(Base64Url.Repadded(payload)) == Ok(Base64Url.BinaryString(utf8Encode(dataString)))
  {
    var bytes := utf8Encode(dataString);
    var payload := Base64Url.ToBase64Url(bytes);
    assert Base64Url.Atob(Base64Url.Repadded(payload)) == Ok(Base64Url.BinaryString(bytes)) by {
      Base64Url.RoundTrip(bytes);
    }
    var origin := BeforeHash(href);
    var fragment := "/export?data=" + payload;
    assert Split(origin + "#" + fragment, '#') == [origin, fragment] by {
      FragmentLacksHash(bytes);
      FirstPieceLacks(href, '#');
      SplitAtHash(origin, fragment);
    }
  }

  // ---------------------------------------------------------------------------
  // CSV
  // ---------------------------------------------------------------------------

  /** A property of a record as `Object.keys` lists it, with the text its value converts to. */
  datatype Field = Field(name: string, text: string)

  type Record = seq<Field>

  function Names(row: Record): (ns: seq<string>)
    ensures |ns| == |row| && forall k :: 0 <= k < |row| ==> ns[k] == row[k].name
  {
    seq(|row|, k requires 0 <= k < |row| => row[k].name)
  }

  /** `row[key]` in a `join`: the text of the first property of that name, or "" when there is none. */
  function Lookup(row: Record, key: string): (t: string)
    ensures t == "" || exists k :: 0 <= k < |row| && row[k].name == key && row[k].text == t
  {
    if row == [] then ""
    else if row[0].name == key then row[0].text
    else
      var t := Lookup(row[1..], key);
      assert t != "" ==> exists k :: 0 <= k < |row| - 1 && row[1..][k].name == key && row[1..][k].text == t;
      t
  }

  /** The values of a row in the order of the header keys. */
  function RowTexts(row: Record, keys: seq<string>): (ts: seq<string>)
    ensures |ts| == |keys| && forall k :: 0 <= k < |keys| ==> ts[k] == Lookup(row, keys[k])
  {
    seq(|keys|, k requires 0 <= k < |keys| => Lookup(row, keys[k]))
  }

  /** The header (the first record's keys) and one line per record, without line ends. */
  function CsvLines(dataSet: seq<Record>): (lines: seq<string>)
    requires dataSet != []
    ensures |lines| == |dataSet| + 1
    ensures lines[0] == Join(Names(dataSet[0]), ",")
    ensures forall i :: 0 <= i < |dataSet| ==> lines[i + 1] == Join(RowTexts(dataSet[i], Names(dataSet[0])), ",")
  {
    var keys := Names(dataSet[0]);
    [Join(keys, ",")] + seq(|dataSet|, i requires 0 <= i < |dataSet| => Join(RowTexts(dataSet[i], keys), ","))
  }

  /** Each line followed by "\n". */
  function Terminated(lines: seq<string>): string
  {
    if lines == [] then "" else lines[0] + "\n" + Terminated(lines[1..])
  }

  lemma {:induction false} TerminatedAppend(lines: seq<string>, x: string)
    ensures Terminated(lines + [x]) == Terminated(lines) + x + "\n"
  {
    if lines == [] {
      assert Terminated([x]) == x + "\n" + Terminated([]);
    } else {
      TerminatedAppend(lines[1..], x);
      assert (lines + [x])[1..] == lines[1..] + [x];
    }
  }

  /** Terminating one more line of a list extends the text by that line and "\n". */
  lemma TerminatedPrefixStep(lines: seq<string>, i: nat)
    requires i < |lines|
    ensures Terminated(lines[..i + 1]) == Terminated(lines[..i]) + lines[i] + "\n"
  {
    assert lines[..i + 1] == lines[..i] + [lines[i]];
    TerminatedAppend(lines[..i], lines[i]);
  }

  /** `exportAsCSV`'s text: nothing for an empty list, otherwise the header and the rows, each ending in "\n". */
  method ExportCsv(dataSet: seq<Record>) returns (csv: Option<string>)
    ensures csv.None? <==> dataSet == []
    ensures csv.Some? ==> csv.value == Terminated(CsvLines(dataSet))
  {
    if |dataSet| == 0 {
      return None;
    }
    ghost var lines := CsvLines(dataSet);
    var keys := Names(dataSet[0]);
    var text := Join(keys, ",") + "\n";
    TerminatedPrefixStep(lines, 0);
    for i := 0 to |dataSet|
      invariant text == Terminated(lines[..i + 1])
    {
      var line := Join(RowTexts(dataSet[i], keys), ",");
      assert line == lines[i + 1];
      TerminatedPrefixStep(lines, i + 1);
      text := text + line + "\n";
    }
    assert lines[..|dataSet| + 1] == lines;
    return Some(text);
  }

  /** Names and values hold neither the field separator nor the line end. */
  predicate Plain(dataSet: seq<Record>)
  {
    forall i, k :: 0 <= i < |dataSet| && 0 <= k < |dataSet[i]| ==>
      Lacks(dataSet[i][k].name, ',') && Lacks(dataSet[i][k].name, '\n')
      && Lacks(dataSet[i][k].text, ',') && Lacks(dataSet[i][k].text, '\n')
  }

  /** Splitting terminated lines at "\n" gives the lines and a final empty piece. */
  lemma {:induction false} SplitTerminated(lines: seq<string>)
    requires forall i :: 0 <= i < |lines| ==> Lacks(lines[i], '\n')
    ensures Split(Terminated(lines), '\n') == lines + [""]
  {
    if lines != [] {
      SplitTerminated(lines[1..]);
      SplitAfter(lines[0], Terminated(lines[1..]), '\n');
      assert lines[0] + "\n" + Terminated(lines[1..]) == lines[0] + ['\n'] + Terminated(lines[1..]);
      assert [lines[0]] + (lines[1..] + [""]) == lines + [""];
    }
  }

  lemma {:induction false} JoinLacks(xs: seq<string>, c: char)
    requires c != ',' && forall k :: 0 <= k < |xs| ==> Lacks(xs[k], c)
    ensures Lacks(Join(xs, ","), c)
  {
    if |xs| > 1 {
      JoinLacks(xs[1..], c);
    }
  }

  /**
   * When no name or value holds ',' or a line end, the CSV reads back: it
   * has one line per record after the header, each ended by "\n", the
   * header splits into the first record's keys, and each line into that
   * record's values in header order.
   */
  lemma CsvReadsBack(dataSet: seq<Record>)
    requires dataSet != [] && |dataSet[0]| > 0 && Plain(dataSet)
    ensures var lines := CsvLines(dataSet);
      && Split(Terminated(lines), '\n') == lines + [""]
      && Split(lines[0], ',') == Names(dataSet[0])
      && forall i :: 0 <= i < |dataSet| ==> Split(lines[i + 1], ',') == RowTexts(dataSet[i], Names(dataSet[0]))
  {
    var lines := CsvLines(dataSet);
    var keys := Names(dataSet[0]);
    forall i | 0 <= i < |dataSet|
      ensures Split(lines[i + 1], ',') == RowTexts(dataSet[i], keys)
      ensures Lacks(lines[i + 1], '\n')
    {
      var ts := RowTexts(dataSet[i], keys);
      forall k | 0 <= k < |ts|
        ensures Lacks(ts[k], ',') && Lacks(ts[k], '\n')
      {
        if ts[k] != "" {
          var j :| 0 <= j < |dataSet[i]| && dataSet[i][j].name == keys[k] && dataSet[i][j].text == ts[k];
        }
      }
      SplitJoin(ts, ',');
      JoinLacks(ts, '\n');
    }
    SplitJoin(keys, ',');
    JoinLacks(keys, '\n');
    SplitTerminated(lines);
  }

  /** Which list of the application state to export. */
  datatype DataKind = VaCharacteristic | AngleCharacteristic | FrequencyCharacteristic | LuxAmperKind

  function VARecord(p: VA.VAData, show: real -> string): Record
  {
    [Field("current", show(p.current)), Field("voltage", show(p.voltage))]
  }

  function AngleRecord(p: Angle.AngleData, show: real -> string): Record
  {
    [Field("angle", show(p.angle)), Field("voltage", show(p.voltage)), Field("amplitude", show(p.amplitude))]
  }

  function FrequencyRecord(p: Frequency.FrequencyData, show: real -> string): Record
  {
    [Field("id", p.id), Field("frequency", show(p.frequency)), Field("voltage", show(p.voltage)), Field("amplitude", show(p.amplitude))]
  }

  function LuxRecord(p: Lux.LuxAmperData, show: real -> string): Record
  {
    [Field("current", show(p.current)), Field("voltage", show(p.voltage))]
  }

  /** The property names of a point type, in declaration order. */
  function KindNames(kind: DataKind): seq<string>
  {
    match kind
    case VaCharacteristic => ["current", "voltage"]
    case AngleCharacteristic => ["angle", "voltage", "amplitude"]
    case FrequencyCharacteristic => ["id", "frequency", "voltage", "amplitude"]
    case LuxAmperKind => ["current", "voltage"]
  }

  /**
   * `data[type]` as records: the properties of each point in declaration
   * order, each number converted to text by `show` (`String(value)`).
   */
  function Records(data: AppData, kind: DataKind, show: real -> string): (rs: seq<Record>)
    ensures |rs| == match kind
      case VaCharacteristic => |data.vaCharacteristic|
      case AngleCharacteristic => |data.angleCharacteristic|
      case FrequencyCharacteristic => |data.frequencyCharacteristic|
      case LuxAmperKind => |data.luxAmper|
    ensures forall i :: 0 <= i < |rs| ==> Names(rs[i]) == KindNames(kind)
  {
    match kind
    case VaCharacteristic =>
      var xs := data.vaCharacteristic;
      seq(|xs|, i requires 0 <= i < |xs| => VARecord(xs[i], show))
    case AngleCharacteristic =>
      var xs := data.angleCharacteristic;
      seq(|xs|, i requires 0 <= i < |xs| => AngleRecord(xs[i], show))
    case FrequencyCharacteristic =>
      var xs := data.frequencyCharacteristic;
      seq(|xs|, i requires 0 <= i < |xs| => FrequencyRecord(xs[i], show))
    case LuxAmperKind =>
      var xs := data.luxAmper;
      seq(|xs|, i requires 0 <= i < |xs| => LuxRecord(xs[i], show))
  }

  lemma JoinTwo(x: string, y: string, sep: string)
    ensures Join([x, y], sep) == x + sep + y
  {
    assert [x, y][1..] == [y];
  }

  lemma JoinThree(x: string, y: string, z: string, sep: string)
    ensures Join([x, y, z], sep) == x + sep + y + sep + z
  {
    assert [x, y, z][1..] == [y, z];
    JoinTwo(y, z, sep);
  }

  /** The header line of each list's CSV. */
  function Header(kind: DataKind): string
  {
    match kind
    case VaCharacteristic => "current,voltage"
    case AngleCharacteristic => "angle,voltage,amplitude"
    case FrequencyCharacteristic => "id,frequency,voltage,amplitude"
    case LuxAmperKind => "current,voltage"
  }

  lemma KindHeader(kind: DataKind)
    ensures Join(KindNames(kind), ",") == Header(kind)
  {
    match kind {
      case VaCharacteristic => CurrentVoltageHeader();
      case AngleCharacteristic => AngleHeader();
      case FrequencyCharacteristic => FrequencyHeader();
      case LuxAmperKind => CurrentVoltageHeader();
    }
  }

  lemma CurrentVoltageHeader()
    ensures Join(["current", "voltage"], ",") == "current,voltage"
  {
    JoinTwo("current", "voltage", ",");
  }

  lemma AngleHeader()
    ensures Join(["angle", "voltage", "amplitude"], ",") == "angle,voltage,amplitude"
  {
    JoinThree("angle", "voltage", "amplitude", ",");
  }

  lemma FrequencyHeader()
    ensures Join(["id", "frequency", "voltage", "amplitude"], ",") == "id,frequency,voltage,amplitude"
  {
    var keys := ["id", "frequency", "voltage", "amplitude"];
    assert keys[1..] == ["frequency", "voltage", "amplitude"];
    JoinThree("frequency", "voltage", "amplitude", ",");
  }

  /** With distinct names, looking up the k-th name finds the k-th value. */
  lemma {:induction false} FirstNameWins(row: Record, k: nat)
    requires k < |row|
    requires forall a, b :: 0 <= a < b < |row| ==> row[a].name != row[b].name
    ensures Lookup(row, row[k].name) == row[k].text
  {
    if k > 0 {
      assert row[0].name != row[k].name;
      FirstNameWins(row[1..], k - 1);
    }
  }

  /** A row whose names are the header keys, none repeated, gives its own values in order. */
  lemma RowInOrder(row: Record, keys: seq<string>)
    requires Names(row) == keys
    requires forall a, b :: 0 <= a < b < |keys| ==> keys[a] != keys[b]
    ensures RowTexts(row, keys) == seq(|row|, k requires 0 <= k < |row| => row[k].text)
  {
    forall k | 0 <= k < |keys|
      ensures Lookup(row, keys[k]) == row[k].text
    {
      FirstNameWins(row, k);
    }
  }

  /**
   * The CSV of a non-empty list: its header is the point type's property
   * names in declaration order, and each row holds one value per property,
   * in that order.
   */
  lemma CsvOfKind(data: AppData, kind: DataKind, show: real -> string)
    requires Records(data, kind, show) != []
    ensures var rs := Records(data, kind, show);
      && CsvLines(rs)[0] == Header(kind)
      && forall i :: 0 <= i < |rs| ==>
        RowTexts(rs[i], Names(rs[0])) == seq(|rs[i]|, k requires 0 <= k < |rs[i]| => rs[i][k].text)
  {
    var rs := Records(data, kind, show);
    KindHeader(kind);
    var keys := KindNames(kind);
    assert forall a, b :: 0 <= a < b < |keys| ==> keys[a] != keys[b];
    forall i | 0 <= i < |rs|
      ensures RowTexts(rs[i], Names(rs[0])) == seq(|rs[i]|, k requires 0 <= k < |rs[i]| => rs[i][k].text)
    {
      RowInOrder(rs[i], keys);
    }
  }

  // ---------------------------------------------------------------------------
  // Point count
  // ---------------------------------------------------------------------------

  /** `totalPoints`. */
  function TotalPoints(data: AppData): (n: nat)
    ensures n == 0 <==>
      data.vaCharacteristic == [] && data.angleCharacteristic == []
      && data.frequencyCharacteristic == [] && data.luxAmper == []
  {
    |data.vaCharacteristic| + |data.angleCharacteristic| + |data.frequencyCharacteristic| + |data.luxAmper|
  }

  /** The point count shown in the dialog is the number of tuples the export carries. */
  lemma TotalPointsCountsTuples(data: AppData, timestamp: string)
    ensures var c := SerializeAsWritten(data, timestamp);
      TotalPoints(data) == |c.u1| + |c.u2| + |c.u3| + |c.u4|
    ensures var c := Serialize(data, timestamp);
      TotalPoints(data) == |c.u1| + |c.u2| + |c.u3| + |c.u4|
  {
  }
}
