/** The GPUs of the container: the information files below the GPU directory, parsed line by
    line, and the choice of those whose device minor is mounted. */
module GpuTopology {
  import opened Text
  import opened PathNormalizer
  import opened Numbers
  import opened GpuPaths

  const UUID_KEY := "GPU UUID:"
  const BUS_KEY := "Bus Location:"
  const MINOR_KEY := "Device Minor:"

  predicate IsBlank(c: char) {
    c == ' ' || c == '\t' || c == '\r' || c == '\n'
  }

  function TrimFront(s: string): string {
    if s != "" && IsBlank(s[0]) then TrimFront(s[1..]) else s
  }

  function TrimBack(s: string): string {
    if s != "" && IsBlank(s[|s|-1]) then TrimBack(s[..|s|-1]) else s
  }

  function Trim(s: string): string {
    TrimBack(TrimFront(s))
  }

  function ValueAfter(line: string, key: string): Option<string> {
    if key <= line then Some(Trim(line[|key|..])) else None
  }

  /** The fields collected so far; `ok` is false once a field was unusable. */
  datatype Partial = Partial(ok: bool, uuid: string, busId: string, deviceMinor: int)

  function ReadLine(p: Partial, line: string): Partial {
    match ValueAfter(line, UUID_KEY)
    case Some(uuid) => if |uuid| < UUID_MAX then p.(uuid := uuid) else p.(ok := false)
    case None =>
      match ValueAfter(line, BUS_KEY)
      case Some(bus) => if bus != "" && |bus| < BUS_ID_MAX then p.(busId := bus) else p.(ok := false)
      case None =>
        match ValueAfter(line, MINOR_KEY)
        case None => p
        case Some(value) =>
          match ParseNumber(value, INT_MAX)
          case Some(minor) => p.(deviceMinor := minor)
          case None => p.(ok := false)
  }

  function WithoutCr(line: string): string {
    if line != "" && line[|line|-1] == '\r' then line[..|line|-1] else line
  }

  function ReadLines(lines: seq<string>): Partial
    decreases |lines|
  {
    if lines == [] then Partial(true, "", "", -1)
    else ReadLine(ReadLines(lines[..|lines|-1]), WithoutCr(lines[|lines|-1]))
  }

  /** The record a parse leaves behind, good or not. Without a bus line the id is taken from the
      path, which must be that of an information file. */
  function Record(path: string, p: Partial): GpuInfo {
    var bus := if p.ok && p.busId == "" then CopiedBus(path) else p.busId;
    var named := p.busId != "" || ExtractBus(path).BusInformation?;
    GpuInfo(p.ok && named && p.deviceMinor >= 0, p.deviceMinor, bus, p.uuid)
  }

  function RecordOf(path: string, text: string): GpuInfo {
    Record(path, ReadLines(Fields(text, '\n')))
  }

  function ParseInformation(path: string, text: string): Option<GpuInfo> {
    if RecordOf(path, text).present then Some(RecordOf(path, text)) else None
  }

  /** A record that is present was named by a bus line or by its path. */
  lemma PresentBus(path: string, p: Partial)
    requires Record(path, p).present
    ensures Record(path, p).busId == if p.busId != "" then p.busId else ExtractBus(path).busId
  {
    hide Normalize, Find;
  }

  // ----- parsing inverts writing

  predicate Blank(s: string) {
    forall i :: 0 <= i < |s| ==> s[i] == ' ' || s[i] == '\t' || s[i] == '\r' || s[i] == '\n'
  }

  /** A field without blanks at its ends. */
  predicate Trimmed(s: string) {
    s != "" ==> !Blank([s[0]]) && !Blank([s[|s|-1]])
  }

  lemma {:induction false} TrimFrontOf(a: string, s: string)
    requires Blank(a) && (s != "" ==> !IsBlank(s[0]))
    ensures TrimFront(a + s) == s
    decreases |a|
  {
    if a == "" {
      assert a + s == s;
    } else {
      assert (a + s)[1..] == a[1..] + s;
      TrimFrontOf(a[1..], s);
    }
  }

  lemma {:induction false} TrimBackOf(s: string, b: string)
    requires Blank(b) && (s != "" ==> !IsBlank(s[|s|-1]))
    ensures TrimBack(s + b) == s
    decreases |b|
  {
    if b == "" {
      assert s + b == s;
    } else {
      var t := s + b;
      assert t[..|t|-1] == s + b[..|b|-1];
      TrimBackOf(s, b[..|b|-1]);
    }
  }

  lemma TrimOf(a: string, s: string, b: string)
    requires Blank(a) && Trimmed(s) && Blank(b)
    ensures Trim(a + s + b) == s
  {
    if s == "" {
      assert a + s + b == (a + b) + "";
      TrimFrontOf(a + b, "");
    } else {
      assert a + s + b == a + (s + b);
      TrimFrontOf(a, s + b);
      TrimBackOf(s, b);
    }
  }

  /** The line gives `value` for `key`. */
  predicate Writes(line: string, key: string, value: string) {
    ValueAfter(WithoutCr(line), key) == Some(value)
  }

  lemma ValueBehind(key: string, rest: string)
    ensures ValueAfter(key + rest, key) == Some(Trim(rest))
  {
    assert (key + rest)[|key|..] == rest;
  }

  /** A key, blanks, a value and blanks; a carriage return at the end is one of them. */
  lemma WrittenLine(key: string, before: string, value: string, after: string)
    requires key != "" && key[|key|-1] != '\r' && Blank(before) && Trimmed(value) && Blank(after)
    ensures Writes(key + (before + value + after), key, value)
  {
    hide Trim, ValueAfter;
    var rest := before + value + after;
    var line := key + rest;
    ValueBehind(key, rest);
    TrimOf(before, value, after);
    if rest != "" && rest[|rest|-1] == '\r' {
      var cut := rest[..|rest|-1];
      assert WithoutCr(line) == key + cut;
      ValueBehind(key, cut);
      TrimCut(before, value, after);
    } else {
      assert WithoutCr(line) == line;
    }
  }

  lemma TrimCut(before: string, value: string, after: string)
    requires Blank(before) && Trimmed(value) && Blank(after)
    requires var rest := before + value + after; rest != "" && rest[|rest|-1] == '\r'
    ensures var rest := before + value + after; Trim(rest[..|rest|-1]) == value
  {
    hide Trim;
    var rest := before + value + after;
    if after != "" {
      assert rest[..|rest|-1] == before + value + after[..|after|-1];
      TrimOf(before, value, after[..|after|-1]);
    } else {
      assert rest == before + value;
      assert value == "";
      assert rest[..|rest|-1] == before[..|before|-1] + "" + "";
      TrimOf(before[..|before|-1], "", "");
    }
  }

  predicate Unrelated(line: string) {
    !(UUID_KEY <= line) && !(BUS_KEY <= line) && !(MINOR_KEY <= line)
  }

  predicate Writable(info: GpuInfo) {
    && info.present && 0 <= info.deviceMinor <= INT_MAX
    && |info.uuid| < UUID_MAX && 0 < |info.busId| < BUS_ID_MAX
  }

  /** The lines hold one uuid, one bus and one minor line, at `u`, `b` and `m`, among
      unrelated ones. */
  ghost predicate Document(lines: seq<string>, u: nat, b: nat, m: nat, info: GpuInfo)
    requires Writable(info)
  {
    && u < |lines| && b < |lines| && m < |lines| && u != b && b != m && u != m
    && Writes(lines[u], UUID_KEY, info.uuid)
    && Writes(lines[b], BUS_KEY, info.busId)
    && Writes(lines[m], MINOR_KEY, Print(info.deviceMinor))
    && forall i :: 0 <= i < |lines| && i != u && i != b && i != m ==> Unrelated(lines[i])
  }

  lemma KeysDiffer(line: string)
    ensures UUID_KEY <= line ==> !(BUS_KEY <= line) && !(MINOR_KEY <= line)
    ensures BUS_KEY <= line ==> !(MINOR_KEY <= line) && !(UUID_KEY <= line)
    ensures MINOR_KEY <= line ==> !(UUID_KEY <= line) && !(BUS_KEY <= line)
  {
    if line != "" {
      assert UUID_KEY <= line ==> line[0] == 'G';
      assert BUS_KEY <= line ==> line[0] == 'B';
      assert MINOR_KEY <= line ==> line[0] == 'D';
    }
  }

  /** What one line of a document does. */
  lemma DocumentLine(lines: seq<string>, u: nat, b: nat, m: nat, info: GpuInfo, i: nat, p: Partial)
    requires Writable(info) && Document(lines, u, b, m, info) && i < |lines|
    ensures ReadLine(p, WithoutCr(lines[i])) ==
            if i == u then p.(uuid := info.uuid)
            else if i == b then p.(busId := info.busId)
            else if i == m then p.(deviceMinor := info.deviceMinor)
            else p
  {
    hide Trim;
    KeysDiffer(WithoutCr(lines[i]));
    assert WithoutCr(lines[i]) <= lines[i];
    assert Zeros(0) + Print(info.deviceMinor) == Print(info.deviceMinor);
    ParseInvertsPrint(Print(info.deviceMinor), INT_MAX, info.deviceMinor);
  }

  lemma {:induction false} DocumentPrefix(lines: seq<string>, u: nat, b: nat, m: nat, info: GpuInfo, n: nat)
    requires Writable(info) && Document(lines, u, b, m, info) && n <= |lines|
    ensures ReadLines(lines[..n]) == Partial(true, if u < n then info.uuid else "",
              if b < n then info.busId else "", if m < n then info.deviceMinor else -1)
    decreases n
  {
    hide Document, ReadLine, ReadLines, WithoutCr;
    DocumentHasLines(lines, u, b, m, info);
    if n == 0 {
      NoLinesRead();
      assert lines[..n] == [];
    } else {
      assert lines[..n] == lines[..n-1] + [lines[n-1]];
      ReadLinesSnoc(lines[..n-1], lines[n-1]);
      DocumentPrefix(lines, u, b, m, info, n - 1);
      DocumentLine(lines, u, b, m, info, n - 1, ReadLines(lines[..n-1]));
    }
  }

  /** Lines joined by newlines. */
  function FileText(lines: seq<string>): string
    requires lines != []
  {
    if |lines| == 1 then lines[0] else lines[0] + ['\n'] + FileText(lines[1..])
  }

  lemma {:induction false} FieldsOfText(lines: seq<string>)
    requires lines != [] && forall i :: 0 <= i < |lines| ==> '\n' !in lines[i]
    ensures Fields(FileText(lines), '\n') == lines
    decreases |lines|
  {
    hide Fields;
    if |lines| == 1 {
      FieldsOfWord(lines[0], '\n');
    } else {
      FieldsCons(lines[0], '\n', FileText(lines[1..]));
      FieldsOfText(lines[1..]);
    }
  }

  /** Parsing inverts writing: the three fields, in any order among unrelated lines, are
      what comes back. */
  lemma ParseInvertsDocument(path: string, lines: seq<string>, u: nat, b: nat, m: nat, info: GpuInfo)
    requires Writable(info) && Document(lines, u, b, m, info)
    requires forall i :: 0 <= i < |lines| ==> '\n' !in lines[i]
    ensures ParseInformation(path, FileText(lines)) == Some(info)
  {
    hide Document, ReadLines, Fields;
    DocumentHasLines(lines, u, b, m, info);
    FieldsOfText(lines);
    DocumentPrefix(lines, u, b, m, info, |lines|);
    assert lines[..|lines|] == lines;
  }

  lemma DocumentHasLines(lines: seq<string>, u: nat, b: nat, m: nat, info: GpuInfo)
    requires Writable(info) && Document(lines, u, b, m, info)
    ensures lines != [] && u < |lines| && b < |lines| && m < |lines| && u != b && b != m && u != m
  {
  }

  /** A parsed record fits the fixed-size fields and names a mounted-minor candidate. */
  lemma ParsedFits(path: string, text: string)
    requires ParseInformation(path, text).Some?
    ensures Writable(ParseInformation(path, text).value)
  {
    var lines := Fields(text, '\n');
    PartialFits(lines);
    PresentBus(path, ReadLines(lines));
    if !ExtractBus(path).NotABusPath? {
      ExtractedFits(path);
    }
    hide Fields, ReadLines, ExtractBus, CopiedBus;
  }

  lemma ExtractedFits(path: string)
    requires !ExtractBus(path).NotABusPath?
    ensures 0 < |ExtractBus(path).busId| < BUS_ID_MAX
  {
    hide Normalize;
  }

  lemma {:induction false} PartialFits(lines: seq<string>)
    ensures var p := ReadLines(lines);
            |p.uuid| < UUID_MAX && |p.busId| < BUS_ID_MAX && -1 <= p.deviceMinor <= INT_MAX
    decreases |lines|
  {
    hide ValueAfter, WithoutCr;
    if lines != [] {
      PartialFits(lines[..|lines|-1]);
    }
  }

  // ----- what is parsed, exactly

  /** The last line that starts with the key gives `value`. */
  ghost predicate LastIs(lines: seq<string>, key: string, value: string) {
    exists k :: 0 <= k < |lines| && Writes(lines[k], key, value) && NoneBehind(lines, key, k + 1)
  }

  ghost predicate NoneBehind(lines: seq<string>, key: string, from: int) {
    forall j :: 0 <= from <= j < |lines| ==> !(key <= WithoutCr(lines[j]))
  }

  /** A value that fits its field: a uuid of less than 96 bytes, a bus of 1 to 31, digits up to
      the largest int. */
  predicate Usable(line: string) {
    && ("GPU UUID:" <= line ==> |Trim(line[9..])| < 96)
    && ("Bus Location:" <= line ==> 0 < |Trim(line[13..])| < 32)
    && ("Device Minor:" <= line ==> ParseNumber(Trim(line[13..]), 0x7fff_ffff).Some?)
  }

  lemma LastOfSnoc(lines: seq<string>, line: string, key: string, value: string)
    ensures LastIs(lines + [line], key, value) <==>
            if key <= WithoutCr(line) then Writes(line, key, value) else LastIs(lines, key, value)
    ensures NoneBehind(lines + [line], key, 0) <==> NoneBehind(lines, key, 0) && !(key <= WithoutCr(line))
  {
    hide Trim, WithoutCr;
    var all, n := lines + [line], |lines|;
    assert all[n] == line;
    forall k | 0 <= k <= n
      ensures NoneBehind(all, key, k) <==> NoneBehind(lines, key, k) && !(key <= WithoutCr(line))
    {
      assert forall j :: 0 <= j < n ==> all[j] == lines[j];
    }
    if LastIs(all, key, value) {
      var k :| 0 <= k < |all| && Writes(all[k], key, value) && NoneBehind(all, key, k + 1);
      assert k < n ==> lines[k] == all[k];
    }
    if key <= WithoutCr(line) {
      assert NoneBehind(all, key, n + 1);
    } else if LastIs(lines, key, value) {
      var k :| 0 <= k < n && Writes(lines[k], key, value) && NoneBehind(lines, key, k + 1);
      assert all[k] == lines[k];
    }
  }

  /** What one field of the partial record is: the value of its last line, or nothing. */
  ghost predicate FieldIs(lines: seq<string>, key: string, value: string) {
    LastIs(lines, key, value) || (NoneBehind(lines, key, 0) && value == "")
  }

  ghost predicate MinorIs(lines: seq<string>, minor: int) {
    || (exists digits :: LastIs(lines, "Device Minor:", digits) && ParseNumber(digits, 0x7fff_ffff) == Some(minor))
    || (NoneBehind(lines, "Device Minor:", 0) && minor == -1)
  }

  predicate AllUsable(lines: seq<string>) {
    forall i :: 0 <= i < |lines| ==> Usable(WithoutCr(lines[i]))
  }

  lemma ReadOneLine(p: Partial, line: string)
    ensures var r := ReadLine(p, line);
            && (r.ok <==> p.ok && Usable(line))
            && (p.ok && Usable(line) ==>
                  && r.uuid == (if "GPU UUID:" <= line then Trim(line[9..]) else p.uuid)
                  && r.busId == (if "Bus Location:" <= line then Trim(line[13..]) else p.busId)
                  && (if "Device Minor:" <= line
                      then ParseNumber(Trim(line[13..]), 0x7fff_ffff) == Some(r.deviceMinor)
                      else r.deviceMinor == p.deviceMinor))
  {
    hide Trim, ParseNumber;
    KeysDiffer(line);
  }

  lemma {:induction false} ReadLinesExact(lines: seq<string>)
    ensures var p := ReadLines(lines);
            && (p.ok <==> AllUsable(lines))
            && (p.ok ==>
                  && FieldIs(lines, "GPU UUID:", p.uuid) && FieldIs(lines, "Bus Location:", p.busId)
                  && MinorIs(lines, p.deviceMinor))
    decreases |lines|
  {
    hide ReadLine, Usable, WithoutCr, LastIs, NoneBehind, ValueAfter;
    if lines == [] {
      NothingRead();
    } else {
      var init, line := lines[..|lines|-1], lines[|lines|-1];
      assert lines == init + [line];
      ReadLinesExact(init);
      ReadLinesSnoc(init, line);
      ReadOneLine(ReadLines(init), WithoutCr(line));
      SnocExact(init, line);
    }
  }

  lemma NothingRead()
    ensures ReadLines([]) == Partial(true, "", "", -1)
    ensures forall key :: NoneBehind([], key, 0)
  {
  }

  /** The three fields behind one more line, given those before it. */
  lemma SnocExact(init: seq<string>, line: string)
    requires var p := ReadLines(init);
             && (p.ok <==> AllUsable(init))
             && (p.ok ==>
                   && FieldIs(init, "GPU UUID:", p.uuid) && FieldIs(init, "Bus Location:", p.busId)
                   && MinorIs(init, p.deviceMinor))
    ensures var lines, p := init + [line], ReadLine(ReadLines(init), WithoutCr(line));
            && (p.ok <==> AllUsable(lines))
            && (p.ok ==>
                  && FieldIs(lines, "GPU UUID:", p.uuid) && FieldIs(lines, "Bus Location:", p.busId)
                  && MinorIs(lines, p.deviceMinor))
  {
    hide ReadLine, ReadLines, Usable, WithoutCr, LastIs, NoneBehind, Trim, ParseNumber;
    var before, p := ReadLines(init), ReadLine(ReadLines(init), WithoutCr(line));
    var lines := init + [line];
    ReadOneLine(before, WithoutCr(line));
    assert AllUsable(lines) <==> AllUsable(init) && Usable(WithoutCr(line)) by {
      assert lines[|init|] == line && forall i :: 0 <= i < |init| ==> lines[i] == init[i];
    }
    if p.ok {
      FieldSnoc(init, line, "GPU UUID:", before.uuid, p.uuid);
      FieldSnoc(init, line, "Bus Location:", before.busId, p.busId);
      MinorSnoc(init, line, before.deviceMinor, p.deviceMinor);
    }
  }

  lemma FieldSnoc(init: seq<string>, line: string, key: string, before: string, after: string)
    requires FieldIs(init, key, before)
    requires key <= WithoutCr(line) ==> Writes(line, key, after)
    requires !(key <= WithoutCr(line)) ==> after == before
    ensures FieldIs(init + [line], key, after)
  {
    hide WithoutCr, LastIs, NoneBehind, Writes;
    LastOfSnoc(init, line, key, after);
  }

  lemma MinorSnoc(init: seq<string>, line: string, before: int, after: int)
    requires MinorIs(init, before)
    requires var l := WithoutCr(line);
             if "Device Minor:" <= l then ParseNumber(Trim(l[13..]), 0x7fff_ffff) == Some(after) else after == before
    ensures MinorIs(init + [line], after)
  {
    hide WithoutCr, LastIs, NoneBehind, Trim, ParseNumber;
    var l := WithoutCr(line);
    if "Device Minor:" <= l {
      LastOfSnoc(init, line, "Device Minor:", Trim(l[13..]));
    } else if digits :| LastIs(init, "Device Minor:", digits) && ParseNumber(digits, 0x7fff_ffff) == Some(before) {
      LastOfSnoc(init, line, "Device Minor:", digits);
    } else {
      LastOfSnoc(init, line, "Device Minor:", "");
    }
  }

  lemma LastIsUnique(lines: seq<string>, key: string, a: string, b: string)
    requires LastIs(lines, key, a)
    ensures LastIs(lines, key, b) ==> a == b
    ensures !NoneBehind(lines, key, 0)
  {
    hide Trim, WithoutCr;
  }

  /** A text parses to `info` exactly when all its lines are usable, the last minor line gives the
      minor, the last uuid line the uuid (none: an empty one), and the last bus line the bus; and
      if there is no bus line, the path of the file names the bus. */
  lemma ParsedExact(path: string, lines: seq<string>, info: GpuInfo)
    requires lines != [] && forall i :: 0 <= i < |lines| ==> '\n' !in lines[i]
    ensures ParseInformation(path, FileText(lines)) == Some(info) <==>
            && info.present && AllUsable(lines)
            && (exists digits :: LastIs(lines, "Device Minor:", digits)
                                 && ParseNumber(digits, 0x7fff_ffff) == Some(info.deviceMinor))
            && FieldIs(lines, "GPU UUID:", info.uuid)
            && (LastIs(lines, "Bus Location:", info.busId)
                || (NoneBehind(lines, "Bus Location:", 0) && ExtractBus(path) == BusInformation(info.busId)))
  {
    hide FileText, Fields, ReadLines, LastIs, NoneBehind, ExtractBus, CopiedBus, AllUsable, ParseNumber;
    FieldsOfText(lines);
    ReadLinesExact(lines);
    var p := ReadLines(lines);
    if p.ok {
      LastsAre(lines, p);
      UsableBusIsNamed(lines);
      NumberIsNatural();
      if ExtractBus(path).BusInformation? {
        InformationIsCopied(path);
      }
      assert LastIs(lines, "Bus Location:", p.busId) ==> p.busId != "";
    }
  }

  /** What the last lines say is determined. */
  lemma LastsAre(lines: seq<string>, p: Partial)
    requires FieldIs(lines, "GPU UUID:", p.uuid) && FieldIs(lines, "Bus Location:", p.busId)
    requires MinorIs(lines, p.deviceMinor)
    ensures forall v :: FieldIs(lines, "GPU UUID:", v) ==> v == p.uuid
    ensures forall v :: LastIs(lines, "Bus Location:", v) ==> v == p.busId
    ensures LastIs(lines, "Bus Location:", p.busId) ==> !NoneBehind(lines, "Bus Location:", 0)
    ensures forall d :: LastIs(lines, "Device Minor:", d) ==>
              ParseNumber(d, 0x7fff_ffff) == Some(p.deviceMinor) && !NoneBehind(lines, "Device Minor:", 0)
  {
    hide LastIs, NoneBehind, ParseNumber;
    forall a: string, b: string, key: string | LastIs(lines, key, a)
      ensures LastIs(lines, key, b) ==> a == b
      ensures !NoneBehind(lines, key, 0)
    {
      LastIsUnique(lines, key, a, b);
    }
  }

  /** A usable bus line names a bus. */
  lemma UsableBusIsNamed(lines: seq<string>)
    requires AllUsable(lines)
    ensures forall v :: LastIs(lines, "Bus Location:", v) ==> v != ""
  {
    hide Trim, WithoutCr;
  }

  lemma NumberIsNatural()
    ensures forall s: string, n: int :: ParseNumber(s, 0x7fff_ffff) == Some(n) ==> n >= 0
  {
  }

  // ----- the program: parsing

  method TrimSlice(s: string) returns (trimmed: string)
    ensures trimmed == Trim(s)
  {
    var start := 0;
    assert s[0..] == s;
    while start < |s| && IsBlank(s[start])
      invariant start <= |s| && TrimFront(s[start..]) == TrimFront(s)
    {
      assert s[start..][1..] == s[start+1..];
      start := start + 1;
    }
    var body := s[start..];
    assert TrimFront(s) == body;
    var len := |body|;
    assert body[..len] == body;
    while len > 0 && IsBlank(body[len-1])
      invariant len <= |body| && TrimBack(body[..len]) == TrimBack(body)
    {
      assert body[..len][..len-1] == body[..len-1];
      len := len - 1;
    }
    trimmed := body[..len];
  }

  method ValueAfterKey(line: string, key: string) returns (value: Option<string>)
    ensures value == ValueAfter(line, key)
  {
    if !(key <= line) {
      return None;
    }
    var trimmed := TrimSlice(line[|key|..]);
    value := Some(trimmed);
  }

  method ParseLine(p: Partial, line: string) returns (r: Partial)
    ensures r == ReadLine(p, line)
  {
    hide ValueAfter;
    r := p;
    var value := ValueAfterKey(line, UUID_KEY);
    if value.Some? {
      r := if |value.value| < UUID_MAX then r.(uuid := value.value) else r.(ok := false);
      return;
    }
    value := ValueAfterKey(line, BUS_KEY);
    if value.Some? {
      r := if value.value != "" && |value.value| < BUS_ID_MAX then r.(busId := value.value) else r.(ok := false);
      return;
    }
    value := ValueAfterKey(line, MINOR_KEY);
    if value.Some? {
      var minor := ParseDecimal(value.value, INT_MAX);
      r := if minor.Some? then r.(deviceMinor := minor.value) else r.(ok := false);
    }
  }

  lemma ReadLinesSnoc(done: seq<string>, line: string)
    ensures ReadLines(done + [line]) == ReadLine(ReadLines(done), WithoutCr(line))
  {
    assert (done + [line])[..|done|] == done;
  }

  /** An empty last line says nothing, so the loop may end at the last newline. */
  lemma EmptyLineIsIgnored(p: Partial)
    ensures ReadLine(p, "") == p
  {
  }

  method ParseGpuInformation(path: string, text: string) returns (ok: bool, info: GpuInfo)
    requires CString(path)
    ensures info == RecordOf(path, text)
    ensures (if ok then Some(info) else None) == ParseInformation(path, text)
  {
    hide ReadLines, ReadLine, Fields, Find, ExtractBus, CopiedBus;
    var p := Partial(true, "", "", -1);
    var offset := 0;
    ghost var done: seq<string> := [];
    ghost var all := Fields(text, '\n');
    NoLinesRead();
    assert text[0..] == text && [] + all == all;
    while offset < |text|
      invariant offset <= |text| && p == ReadLines(done)
      invariant all == done + Fields(text[offset..], '\n') || (offset == |text| && all == done)
    {
      var next := NextNewline(text, offset);
      var line := text[offset..next];
      ghost var rest := text[offset..];
      FieldsAtNewline(text, offset, next);
      var stripped := if line != "" && line[|line|-1] == '\r' then line[..|line|-1] else line;
      p := ParseLine(p, stripped);
      ReadLinesSnoc(done, line);
      done := done + [line];
      offset := next;
      if offset < |text| {
        offset := offset + 1;
      }
    }
    if all != done {
      LastEmptyLine(done, text[offset..]);
    }
    assert ReadLines(all) == p;
    ok := p.ok;
    var busId := p.busId;
    if ok && busId == "" {
      var bus;
      bus, busId := ExtractProcBus(path);
      if bus.BusInformation? {
        InformationIsCopied(path);
      } else {
        ok := false;
      }
    }
    info := GpuInfo(ok && p.deviceMinor >= 0 && busId != "", p.deviceMinor, busId, p.uuid);
    ok := ok && info.present;
  }

  lemma InformationIsCopied(path: string)
    requires ExtractBus(path).BusInformation?
    ensures CopiedBus(path) == ExtractBus(path).busId != ""
  {
    hide Normalize;
  }

  lemma NoLinesRead()
    ensures ReadLines([]) == Partial(true, "", "", -1)
  {
  }

  method NextNewline(text: string, offset: nat) returns (next: nat)
    requires offset < |text|
    ensures offset <= next <= |text| && next - offset == Find(text[offset..], '\n')
  {
    next := offset;
    while next < |text| && text[next] != '\n'
      invariant offset <= next <= |text| && '\n' !in text[offset..][..next-offset]
    {
      assert text[offset..][..next+1-offset] == text[offset..][..next-offset] + [text[next]];
      next := next + 1;
    }
    FindUnique(text[offset..], '\n', next - offset);
  }

  lemma FieldsAtNewline(text: string, offset: nat, next: nat)
    requires offset < |text| && offset <= next <= |text| && next - offset == Find(text[offset..], '\n')
    ensures Fields(text[offset..], '\n') ==
            [text[offset..next]] + (if next < |text| then Fields(text[next+1..], '\n') else [])
  {
    hide Fields, Find;
    var rest, line := text[offset..], text[offset..next];
    assert rest[..next-offset] == line;
    if next < |text| {
      FieldsCons(line, '\n', text[next+1..]);
      assert line + ['\n'] + text[next+1..] == rest;
    } else {
      assert rest == line;
      FieldsOfWord(line, '\n');
    }
  }

  lemma LastEmptyLine(done: seq<string>, rest: string)
    requires rest == ""
    ensures ReadLines(done + Fields(rest, '\n')) == ReadLines(done)
  {
    FieldsOfWord(rest, '\n');
    ReadLinesSnoc(done, "");
    EmptyLineIsIgnored(ReadLines(done));
  }

  // ----- the collected information

  datatype InfoFile = InfoFile(path: string, text: string)

  /** The records of the files that parse, in order. */
  function ParsedInfos(files: seq<InfoFile>): (infos: seq<GpuInfo>)
    ensures |infos| <= |files|
  {
    if files == [] then []
    else
      var info := ParseInformation(files[0].path, files[0].text);
      (if info.Some? then [info.value] else []) + ParsedInfos(files[1..])
  }

  lemma {:induction false} ParsedInfosExact(files: seq<InfoFile>, info: GpuInfo)
    ensures info in ParsedInfos(files) <==>
            exists i :: 0 <= i < |files| && ParseInformation(files[i].path, files[i].text) == Some(info)
    decreases |files|
  {
    hide ParseInformation;
    if files != [] {
      ParsedInfosExact(files[1..], info);
      var first := ParseInformation(files[0].path, files[0].text);
      assert files == [files[0]] + files[1..];
      assert info in ParsedInfos(files) <==> first == Some(info) || info in ParsedInfos(files[1..]);
      if i :| 0 <= i < |files| && ParseInformation(files[i].path, files[i].text) == Some(info) {
        assert i == 0 || files[1..][i-1] == files[i];
      }
      if i :| 0 <= i < |files| - 1 && ParseInformation(files[1..][i].path, files[1..][i].text) == Some(info) {
        assert files[i+1] == files[1..][i];
      }
    }
  }

  // ----- the allowed set

  predicate Qualifies(info: GpuInfo, minors: seq<int>, uuid: string) {
    info.present && info.deviceMinor in minors && (uuid == "" || info.uuid == uuid)
  }

  function Qualified(infos: seq<GpuInfo>, minors: seq<int>, uuid: string): seq<GpuInfo> {
    if infos == [] then []
    else (if Qualifies(infos[0], minors, uuid) then [infos[0]] else []) + Qualified(infos[1..], minors, uuid)
  }

  function FirstGpus(gpus: seq<GpuInfo>): seq<GpuInfo> {
    if |gpus| <= MAX_GPUS then gpus else gpus[..MAX_GPUS]
  }

  /** The first 32 qualified GPUs; the set is valid iff there is one. */
  function Allowed(infos: seq<GpuInfo>, minors: seq<int>, uuid: string): AllowedGpus {
    var gpus := FirstGpus(Qualified(infos, minors, uuid));
    AllowedGpus(gpus != [], gpus)
  }

  lemma {:induction false} QualifiedExact(infos: seq<GpuInfo>, minors: seq<int>, uuid: string, info: GpuInfo)
    ensures info in Qualified(infos, minors, uuid) <==> info in infos && Qualifies(info, minors, uuid)
    ensures |Qualified(infos, minors, uuid)| <= |infos|
  {
    if infos != [] {
      QualifiedExact(infos[1..], minors, uuid, info);
      assert infos == [infos[0]] + infos[1..];
    }
  }

  lemma {:induction false} QualifiedAt(infos: seq<GpuInfo>, minors: seq<int>, uuid: string) returns (at: seq<nat>)
    ensures Selects(infos, at, Qualified(infos, minors, uuid))
    ensures forall i: nat :: i in at <==> i < |infos| && Qualifies(infos[i], minors, uuid)
  {
    hide Qualifies, NextPositions, Selects;
    if infos == [] {
      at := [];
      NothingSelected(infos, minors, uuid);
    } else {
      var below := QualifiedAt(infos[1..], minors, uuid);
      var keep := Qualifies(infos[0], minors, uuid);
      at := NextPositions(below, keep);
      assert infos == [infos[0]] + infos[1..];
      SelectsCons(infos[0], infos[1..], below, Qualified(infos[1..], minors, uuid), keep);
      forall i: nat
        ensures i in at <==> i < |infos| && Qualifies(infos[i], minors, uuid)
      {
        if i > 0 {
          assert i in at <==> i - 1 in below;
        }
      }
    }
  }

  lemma NothingSelected(infos: seq<GpuInfo>, minors: seq<int>, uuid: string)
    requires infos == []
    ensures Selects(infos, [], Qualified(infos, minors, uuid))
  {
  }

  lemma SelectsPrefix<T>(all: seq<T>, at: seq<nat>, out: seq<T>, n: nat)
    requires Selects(all, at, out) && n <= |at|
    ensures Selects(all, at[..n], out[..n])
    ensures forall i :: i in at[..n] ==> i in at
    ensures forall i :: i in at ==> i in at[..n] || (|at| > n && forall j :: j in at[..n] ==> j < i)
  {
    assert forall k :: 0 <= k < n ==> at[..n][k] == at[k] && at[k] in at[..n];
    forall i | i in at && i !in at[..n]
      ensures |at| > n && forall j :: j in at[..n] ==> j < i
    {
      var k :| 0 <= k < |at| && at[k] == i;
      assert k >= n;
    }
  }

  /** The set holds, in order and each once, the records that are present, have a mounted minor
      and match a uuid that is asked for: all of them, or the first 32. It is valid iff it holds
      any. */
  lemma AllowedIsFirstQualified(infos: seq<GpuInfo>, minors: seq<int>, uuid: string)
    ensures var allowed := Allowed(infos, minors, uuid);
            && (allowed.valid <==> allowed.gpus != [])
            && exists at :: Selects(infos, at, allowed.gpus) && |at| <= 32 &&
                 (forall i: nat :: i in at ==>
                    && i < |infos| && infos[i].present && infos[i].deviceMinor in minors
                    && (uuid != "" ==> infos[i].uuid == uuid)) &&
                 forall i: nat :: i < |infos| && infos[i].present && infos[i].deviceMinor in minors
                                  && (uuid != "" ==> infos[i].uuid == uuid) ==>
                    i in at || (|at| == 32 && forall j :: j in at ==> j < i)
  {
    hide Qualified;
    var all := QualifiedAt(infos, minors, uuid);
    var n := if |all| <= MAX_GPUS then |all| else MAX_GPUS;
    assert Qualified(infos, minors, uuid)[..n] == Allowed(infos, minors, uuid).gpus;
    SelectsPrefix(infos, all, Qualified(infos, minors, uuid), n);
    hide Selects, Allowed;
    assert |all[..n]| <= 32;
  }

  /** With at most 32 records, the set holds exactly those that are present, have a mounted minor
      and match a uuid that is asked for. */
  lemma AllowedExact(infos: seq<GpuInfo>, minors: seq<int>, uuid: string, info: GpuInfo)
    requires |infos| <= 32
    ensures info in Allowed(infos, minors, uuid).gpus <==>
            info in infos && info.present && info.deviceMinor in minors && (uuid != "" ==> info.uuid == uuid)
    ensures Allowed(infos, minors, uuid).valid <==> Allowed(infos, minors, uuid).gpus != []
  {
    hide Qualified;
    QualifiedExact(infos, minors, uuid, info);
  }

  /** With at most 32 information files a bus is allowed exactly when one of them names it and
      its minor is mounted (and its uuid matches, if one is asked for). */
  lemma AllowedBusExact(infos: seq<GpuInfo>, minors: seq<int>, uuid: string, bus: string)
    requires |infos| <= 32 && bus != ""
    ensures AllowsBus(Allowed(infos, minors, uuid), bus) <==>
            exists info :: info in infos && info.present && info.deviceMinor in minors
                           && (uuid != "" ==> info.uuid == uuid) && info.busId == bus
  {
    hide Allowed;
    var allowed := Allowed(infos, minors, uuid);
    if AllowsBus(allowed, bus) {
      var i :| 0 <= i < |allowed.gpus| && allowed.gpus[i].busId == bus;
      AllowedExact(infos, minors, uuid, allowed.gpus[i]);
    }
    if info :| info in infos && info.present && info.deviceMinor in minors
               && (uuid != "" ==> info.uuid == uuid) && info.busId == bus {
      AllowedExact(infos, minors, uuid, info);
      var i :| 0 <= i < |allowed.gpus| && allowed.gpus[i] == info;
    }
  }

  /** Sets built from parsed files fit the fixed-size structures every filter relies on. */
  lemma AllowedFits(infos: seq<GpuInfo>, minors: seq<int>, uuid: string)
    requires forall i :: 0 <= i < |infos| ==> Writable(infos[i])
    ensures FitsArrays(Allowed(infos, minors, uuid))
  {
    var gpus := Allowed(infos, minors, uuid).gpus;
    forall i | 0 <= i < |gpus|
      ensures |gpus[i].busId| < BUS_ID_MAX
    {
      assert gpus[i] == Qualified(infos, minors, uuid)[i];
      QualifiedExact(infos, minors, uuid, gpus[i]);
    }
  }

  method MinorIsMounted(minor: int, minors: seq<int>) returns (mounted: bool)
    ensures mounted <==> minor in minors
  {
    var i := 0;
    while i < |minors|
      invariant i <= |minors| && minor !in minors[..i]
    {
      if minors[i] == minor {
        return true;
      }
      i := i + 1;
    }
    mounted := false;
  }

  lemma QualifiedStep(info: GpuInfo, rest: seq<GpuInfo>, minors: seq<int>, uuid: string)
    ensures Qualified([info] + rest, minors, uuid) ==
            (if info.present && info.deviceMinor in minors && (uuid == "" || info.uuid == uuid) then [info] else [])
            + Qualified(rest, minors, uuid)
  {
    assert ([info] + rest)[1..] == rest;
  }

  method BuildAllowedGpus(infos: seq<GpuInfo>, minors: seq<int>, uuid: string) returns (allowed: AllowedGpus)
    ensures allowed == Allowed(infos, minors, uuid)
  {
    hide Qualified, Qualifies;
    allowed := AllowedGpus(false, []);
    if infos == [] || minors == [] {
      NoneQualify(infos, minors, uuid);
      return;
    }
    var i := 0;
    ghost var all := Qualified(infos, minors, uuid);
    assert infos[0..] == infos;
    while i < |infos| && |allowed.gpus| < MAX_GPUS
      invariant i <= |infos| && !allowed.valid && |allowed.gpus| <= MAX_GPUS
      invariant all == allowed.gpus + Qualified(infos[i..], minors, uuid)
    {
      var info := infos[i];
      QualifiedStep(info, infos[i+1..], minors, uuid);
      assert infos[i..] == [info] + infos[i+1..];
      var mounted := MinorIsMounted(info.deviceMinor, minors);
      if info.present && mounted && (uuid == "" || info.uuid == uuid) {
        allowed := allowed.(gpus := allowed.gpus + [info]);
      }
      i := i + 1;
    }
    if i == |infos| {
      NoneQualify(infos[i..], minors, uuid);
    }
    assert FirstGpus(all) == allowed.gpus;
    allowed := allowed.(valid := |allowed.gpus| > 0);
  }

  lemma {:induction false} NoneQualify(infos: seq<GpuInfo>, minors: seq<int>, uuid: string)
    requires infos == [] || minors == []
    ensures Qualified(infos, minors, uuid) == []
    decreases |infos|
  {
    if infos != [] {
      NoneQualify(infos[1..], minors, uuid);
    }
  }
}
