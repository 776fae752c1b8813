/** Discovery of the container's memory limit: mountinfo (proc_pid_mountinfo(5)), the process's
    cgroup lines (cgroups(7)), the control files, and the choice of the smallest limit. */
module Cgroup {
  import opened Text
  import opened Numbers
  import opened CgroupPaths

  /** Limits from here on mean "unlimited". */
  const SENTINEL := 0x7fff_ffff_ffff_f000
  const TOKEN_SIZE := 64
  const LINE_SIZE := 1024
  const FIELD_SIZE := 512

  /** The readable files, by path. */
  type FileSystem = map<string, string>

  // ----- stdio

  /** How many bytes fgets takes with a buffer of `size`: up to and with the first newline,
      at most size - 1. */
  function FgetsLength(rest: string, size: nat): (n: nat)
    requires size >= 2
    ensures n <= |rest| && (rest != "" ==> 0 < n < size)
  {
    var line := if Find(rest, '\n') < |rest| then Find(rest, '\n') + 1 else |rest|;
    if line < size then line else size - 1
  }

  /** The successive results of fgets. */
  function Chunks(text: string, size: nat): seq<string>
    requires size >= 2
    decreases |text|
  {
    if text == "" then [] else [text[..FgetsLength(text, size)]] + Chunks(text[FgetsLength(text, size)..], size)
  }

  /** A buffer as a C string. */
  function UpToNul(s: string): string {
    s[..Find(s, '\0')]
  }

  predicate IsSpace(c: char) {
    c == ' ' || c == '\t' || c == '\n' || c == '\r' || c as int == 11 || c as int == 12
  }

  function SkipSpace(s: string): string {
    if s != "" && IsSpace(s[0]) then SkipSpace(s[1..]) else s
  }

  function TakeWord(s: string): string {
    if s != "" && !IsSpace(s[0]) then [s[0]] + TakeWord(s[1..]) else ""
  }

  /** The first blank-delimited word of a buffer. */
  function TrimToken(s: string): string {
    TakeWord(SkipSpace(s))
  }

  lemma SkipSpaceAt(s: string, k: nat)
    requires k < |s| && IsSpace(s[k])
    ensures SkipSpace(s[k..]) == SkipSpace(s[k+1..])
  {
    assert s[k..][1..] == s[k+1..];
  }

  lemma TakeWordAt(s: string, k: nat)
    requires k < |s| && !IsSpace(s[k])
    ensures TakeWord(s[k..]) == [s[k]] + TakeWord(s[k+1..])
  {
    assert s[k..][1..] == s[k+1..];
  }

  lemma NothingSkipped(s: string)
    requires s == "" || !IsSpace(s[0])
    ensures SkipSpace(s) == s
  {
  }

  lemma WordEnds(s: string)
    requires s == "" || IsSpace(s[0])
    ensures TakeWord(s) == ""
  {
  }

  method TrimTokenInPlace(s: string) returns (token: string)
    ensures token == TrimToken(s)
  {
    hide SkipSpace, TakeWord, IsSpace;
    var start := 0;
    assert s[0..] == s;
    while start < |s| && IsSpace(s[start])
      invariant start <= |s| && SkipSpace(s[start..]) == SkipSpace(s)
    {
      SkipSpaceAt(s, start);
      start := start + 1;
    }
    NothingSkipped(s[start..]);
    var end := start;
    ghost var body := s[start..];
    while end < |s| && !IsSpace(s[end])
      invariant start <= end <= |s| && TakeWord(body) == s[start..end] + TakeWord(s[end..])
    {
      TakeWordAt(s, end);
      assert s[start..end] + [s[end]] == s[start..end+1];
      end := end + 1;
    }
    WordEnds(s[end..]);
    token := s[start..end];
  }

  // ----- control files

  /** The first word of the first line, if there is one. */
  function ReadToken(files: FileSystem, path: string): Option<string> {
    if path !in files || files[path] == "" then None
    else
      var token := TrimToken(UpToNul(files[path][..FgetsLength(files[path], TOKEN_SIZE)]));
      if token == "" then None else Some(token)
  }

  /** A finite, non-zero limit below the sentinel. */
  function ReadLimit(files: FileSystem, path: string): (limit: Option<nat>)
    ensures limit.Some? ==> 0 < limit.value < SENTINEL
  {
    match ReadToken(files, path)
    case None => None
    case Some(token) =>
      if token == "max" then None
      else
        match ParseNumber(token, U64_MAX)
        case None => None
        case Some(value) => if value == 0 || value >= SENTINEL then None else Some(value)
  }

  function ReadCounter(files: FileSystem, path: string): Option<nat> {
    match ReadToken(files, path)
    case None => None
    case Some(token) => ParseNumber(token, U64_MAX)
  }

  method ReadTokenFile(files: FileSystem, path: string) returns (token: Option<string>)
    ensures token == ReadToken(files, path)
  {
    if path !in files || files[path] == "" {
      return None;
    }
    var t := TrimTokenInPlace(UpToNul(files[path][..FgetsLength(files[path], TOKEN_SIZE)]));
    token := if t == "" then None else Some(t);
  }

  method ReadLimitFile(files: FileSystem, path: string) returns (limit: Option<nat>)
    ensures limit == ReadLimit(files, path)
  {
    var token := ReadTokenFile(files, path);
    if token == None || token.value == "max" {
      return None;
    }
    var value := ParseDecimal(token.value, U64_MAX);
    if value == None || value.value == 0 || value.value >= SENTINEL {
      return None;
    }
    limit := value;
  }

  method ReadCounterFile(files: FileSystem, path: string) returns (value: Option<nat>)
    ensures value == ReadCounter(files, path)
  {
    var token := ReadTokenFile(files, path);
    if token == None {
      return None;
    }
    value := ParseDecimal(token.value, U64_MAX);
  }

  lemma {:induction false} TakeWordOf(word: string, rest: string)
    requires forall i :: 0 <= i < |word| ==> !IsSpace(word[i])
    requires rest == "" || IsSpace(rest[0])
    ensures TakeWord(word + rest) == word
    decreases |word|
  {
    if word == "" {
      assert word + rest == rest;
    } else {
      assert (word + rest)[1..] == word[1..] + rest;
      TakeWordOf(word[1..], rest);
      assert [word[0]] + word[1..] == word;
    }
  }

  /** isspace(3) in the C locale: the five control characters from tab on, and the blank. */
  predicate IsBlankByte(c: char) {
    9 <= c as int <= 13 || c == ' '
  }

  /** The token of a file that holds one word: the word, or as much of it as fits the token
      buffer. */
  lemma WordToken(files: FileSystem, path: string, word: string)
    requires word != "" && forall i :: 0 <= i < |word| ==> !IsBlankByte(word[i]) && word[i] != '\0'
    requires path in files && files[path] == word + "\n"
    ensures ReadToken(files, path) == Some(if |word| < 64 then word else word[..63])
  {
    hide TrimToken, Find, TakeWord, SkipSpace;
    var text, n := word + "\n", FgetsLength(word + "\n", TOKEN_SIZE);
    assert text[..|word|] == word;
    FindUnique(text, '\n', |word|);
    var chunk := text[..n];
    assert chunk == if |word| < 63 then word + "\n" else word[..63] + "";
    FindUnique(chunk, '\0', |chunk|);
    assert chunk[..|chunk|] == chunk;
    if |word| < 63 {
      TrimWord(word, "\n");
    } else {
      TrimWord(word[..63], "");
    }
  }

  lemma TrimWord(word: string, rest: string)
    requires word != "" && forall i :: 0 <= i < |word| ==> !IsBlankByte(word[i])
    requires rest == "" || IsBlankByte(rest[0])
    ensures TrimToken(word + rest) == word
  {
    assert (word + rest)[0] == word[0];
    TakeWordOf(word, rest);
  }

  /** Blanks in front of a word and whatever follows it behind a blank are dropped. */
  lemma {:induction false} TrimAround(blanks: string, word: string, rest: string)
    requires forall i :: 0 <= i < |blanks| ==> IsBlankByte(blanks[i])
    requires word != "" && forall i :: 0 <= i < |word| ==> !IsBlankByte(word[i])
    requires rest == "" || IsBlankByte(rest[0])
    ensures TrimToken(blanks + word + rest) == word
    decreases |blanks|
  {
    if blanks == "" {
      assert blanks + word + rest == word + rest;
      TrimWord(word, rest);
    } else {
      assert (blanks + word + rest)[1..] == blanks[1..] + word + rest;
      TrimAround(blanks[1..], word, rest);
    }
  }

  /** A printed number is trimmed out of the blanks around it. */
  lemma TrimPrinted(n: nat, rest: string)
    requires rest == "" || IsSpace(rest[0])
    ensures TrimToken(Print(n) + rest) == Print(n)
  {
    TrimWord(Print(n), rest);
  }

  lemma PrintedToken(files: FileSystem, path: string, n: nat)
    requires path in files && files[path] == Print(n) + "\n" && n <= U64_MAX
    ensures ReadToken(files, path) == Some(Print(n)) && Print(n) != "max"
  {
    hide Print, ReadToken;
    PrintLengths(n);
    WordToken(files, path, Print(n));
    assert IsDigit(Print(n)[0]);
  }

  /** Reading a control file inverts what the kernel prints into it. */
  lemma PrintedFileReads(files: FileSystem, path: string, n: nat)
    requires path in files && files[path] == Print(n) + "\n" && n <= U64_MAX
    ensures ReadCounter(files, path) == Some(n)
    ensures ReadLimit(files, path) == if 0 < n < SENTINEL then Some(n) else None
  {
    hide Print, ReadToken;
    PrintedToken(files, path, n);
    assert Zeros(0) + Print(n) == Print(n);
    ParseInvertsPrint(Print(n), U64_MAX, n);
  }

  // ----- controllers

  /** The comma-separated parts that are looked at: all but an empty last one. */
  function Parts(controllers: string): seq<string> {
    DropEmptyLast(Fields(controllers, ','))
  }

  function DropEmptyLast(fields: seq<string>): seq<string>
    requires fields != []
  {
    if fields[|fields|-1] == "" then fields[..|fields|-1] else fields
  }

  lemma DropEmptyLastCons(head: string, below: seq<string>)
    requires below != []
    ensures DropEmptyLast([head] + below) == [head] + DropEmptyLast(below)
    ensures DropEmptyLast([head]) == if head == "" then [] else [head]
  {
    assert ([head] + below)[..|below|] == [head] + below[..|below|-1];
  }

  lemma PartsHoldWords(controllers: string, word: string)
    requires word != ""
    ensures word in Parts(controllers) <==> word in Fields(controllers, ',')
  {
    hide Fields;
    var fields := Fields(controllers, ',');
    assert fields == fields[..|fields|-1] + [fields[|fields|-1]];
  }

  lemma PartsSplit(rest: string, len: nat)
    requires len == Find(rest, ',')
    ensures rest == "" ==> Parts(rest) == []
    ensures rest != "" && len == |rest| ==> Parts(rest) == [rest[..len]]
    ensures len < |rest| ==> Parts(rest) == [rest[..len]] + Parts(rest[len+1..])
  {
    hide Find, Fields, DropEmptyLast;
    FieldsSplit(rest, ',');
    DropEmptyLastCons(rest[..len], if len < |rest| then Fields(rest[len+1..], ',') else [""]);
  }

  /** Walks the comma-separated list part by part. */
  method ControllersInclude(controllers: string, needle: string) returns (found: bool)
    ensures found <==> needle in Parts(controllers)
  {
    hide Find, Parts;
    var part := 0;
    assert controllers[0..] == controllers;
    while part < |controllers|
      invariant part <= |controllers|
      invariant needle in Parts(controllers) <==> needle in Parts(controllers[part..])
      decreases |controllers| - part
    {
      ghost var rest := controllers[part..];
      var len := Find(controllers[part..], ',');
      PartsSplit(rest, len);
      assert controllers[part..part+len] == rest[..len];
      if controllers[part..part+len] == needle {
        return true;
      }
      if part + len == |controllers| {
        return false;
      }
      assert rest[len+1..] == controllers[part+len+1..];
      part := part + len + 1;
    }
    PartsSplit(controllers[part..], 0);
    found := false;
  }

  /** The first field, and the fields behind its separator. */
  lemma FieldsSplit(s: string, sep: char)
    ensures Find(s, sep) == |s| ==> Fields(s, sep) == [s] && s[..|s|] == s
    ensures Find(s, sep) < |s| ==> Fields(s, sep) == [s[..Find(s, sep)]] + Fields(s[Find(s, sep)+1..], sep)
  {
    hide Find, Fields;
    var k := Find(s, sep);
    assert s[..|s|] == s;
    if k == |s| {
      FieldsOfWord(s, sep);
    } else {
      FieldsCons(s[..k], sep, s[k+1..]);
      assert s[..k] + [sep] + s[k+1..] == s;
    }
  }

  // ----- mountinfo

  datatype Mount = Mount(root: string, point: string)

  /** The first usable mount of each kind. */
  datatype Mounts = Mounts(v2: Option<Mount>, v1Memory: Option<Mount>)

  /** What the tokens of one line say: fields 4 to 6 up to the separator, then the file
      system type and the super options behind it. */
  datatype MountFields = MountFields(
    root: Option<string>, point: Option<string>, options: Option<string>,
    fstype: Option<string>, superOptions: Option<string>)

  function TokenAt(tokens: seq<string>, k: nat): Option<string> {
    if k < |tokens| then Some(tokens[k]) else None
  }

  /** Position of the first "-" token, or the number of tokens. */
  function Separator(tokens: seq<string>): (k: nat)
    ensures k <= |tokens| && (forall i :: 0 <= i < k ==> tokens[i] != "-") && (k < |tokens| ==> tokens[k] == "-")
  {
    if tokens == [] || tokens[0] == "-" then 0 else 1 + Separator(tokens[1..])
  }

  function ParseFields(tokens: seq<string>): MountFields {
    var dash := Separator(tokens);
    var head := if dash < |tokens| then tokens[..dash+1] else tokens;
    var fstype := if dash < |tokens| then TokenAt(tokens, dash + 1) else None;
    var superOptions := if dash < |tokens| then TokenAt(tokens, dash + 3) else None;
    MountFields(TokenAt(head, 3), TokenAt(head, 4), TokenAt(head, 5), fstype, superOptions)
  }

  function OrEmpty(s: Option<string>): string {
    if s.Some? then s.value else ""
  }

  predicate HasMemory(f: MountFields) {
    "memory" in Fields(OrEmpty(f.options), ',') || "memory" in Fields(OrEmpty(f.superOptions), ',')
  }

  function AddMount(mounts: Mounts, f: MountFields): Mounts {
    if f.root == None || f.point == None || f.fstype == None then mounts
    else
      var fits := |f.root.value| < FIELD_SIZE && |f.point.value| < FIELD_SIZE;
      var mount := Some(Mount(f.root.value, f.point.value));
      var v2 := if mounts.v2 == None && f.fstype.value == "cgroup2" && fits then mount else mounts.v2;
      var v1Fits := f.fstype.value == "cgroup" && HasMemory(f) && fits;
      Mounts(v2, if mounts.v1Memory == None && v1Fits then mount else mounts.v1Memory)
  }

  /** The strtok_r loop: field numbers are counted, the separator switches to the tail. */
  method ParseTokens(tokens: seq<string>) returns (f: MountFields)
    ensures f == ParseFields(tokens)
  {
    f := MountFields(None, None, None, None, None);
    var field := 0;
    while field < |tokens|
      invariant field <= |tokens|
      invariant forall i :: 0 <= i < field ==> tokens[i] != "-"
      invariant f == MountFields(TokenAt(tokens[..field], 3), TokenAt(tokens[..field], 4),
                                 TokenAt(tokens[..field], 5), None, None)
    {
      var token := tokens[field];
      field := field + 1;
      if field == 4 {
        f := f.(root := Some(token));
      } else if field == 5 {
        f := f.(point := Some(token));
      } else if field == 6 {
        f := f.(options := Some(token));
      }
      if token == "-" {
        f := f.(fstype := TokenAt(tokens, field), superOptions := TokenAt(tokens, field + 2));
        assert Separator(tokens) == field - 1;
        return;
      }
    }
    assert tokens[..field] == tokens;
  }

  method ParseMountinfoLine(mounts: Mounts, line: string) returns (r: Mounts)
    ensures r == AddMount(mounts, ParseFields(Tokens(line, ' ')))
  {
    var f := ParseTokens(Tokens(line, ' '));
    if f.root == None || f.point == None || f.fstype == None {
      return mounts;
    }
    r := mounts;
    var fits := |f.root.value| < FIELD_SIZE && |f.point.value| < FIELD_SIZE;
    if r.v2 == None && f.fstype.value == "cgroup2" && fits {
      r := r.(v2 := Some(Mount(f.root.value, f.point.value)));
    }
    PartsHoldWords(OrEmpty(f.options), "memory");
    PartsHoldWords(OrEmpty(f.superOptions), "memory");
    var inOptions := ControllersInclude(OrEmpty(f.options), "memory");
    var inSuper := ControllersInclude(OrEmpty(f.superOptions), "memory");
    if r.v1Memory == None && f.fstype.value == "cgroup" && (inOptions || inSuper) && fits {
      r := r.(v1Memory := Some(Mount(f.root.value, f.point.value)));
    }
  }

  /** Words joined by single blanks. */
  function Words(ws: seq<string>): string {
    if ws == [] then "" else if |ws| == 1 then ws[0] else ws[0] + " " + Words(ws[1..])
  }

  predicate AllWords(ws: seq<string>) {
    forall i :: 0 <= i < |ws| ==> ws[i] != "" && ' ' !in ws[i]
  }

  lemma {:induction false} TokensOfWords(ws: seq<string>)
    requires AllWords(ws)
    ensures Tokens(Words(ws), ' ') == ws
    decreases |ws|
  {
    if |ws| == 1 {
      TokensOfWord(ws[0], ' ');
    } else if |ws| > 1 {
      TokensOfJoined(ws[0], Words(ws[1..]), ' ');
      TokensOfWord(ws[0], ' ');
      TokensOfWords(ws[1..]);
    }
  }

  lemma SeparatorAt(tokens: seq<string>, k: nat)
    requires k < |tokens| && tokens[k] == "-" && forall i :: 0 <= i < k ==> tokens[i] != "-"
    ensures Separator(tokens) == k
  {
  }

  /** A line written as proc_pid_mountinfo(5) describes it is read back: the optional fields
      between the mount options and the separator may be any number, the rest is positional. */
  lemma MountLineRoundTrip(
    head: seq<string>, optional: seq<string>, fstype: string, source: string, superOptions: string)
    requires |head| == 6 && AllWords(head) && AllWords(optional) && AllWords([fstype, source, superOptions])
    requires forall i :: 0 <= i < 6 ==> head[i] != "-"
    requires forall i :: 0 <= i < |optional| ==> optional[i] != "-"
    ensures var line := Words(head + optional + ["-", fstype, source, superOptions]);
            ParseFields(Tokens(line, ' ')) ==
            MountFields(Some(head[3]), Some(head[4]), Some(head[5]), Some(fstype), Some(superOptions))
  {
    var tokens := head + optional + ["-", fstype, source, superOptions];
    assert AllWords(["-", fstype, source, superOptions]) by {
      assert [fstype, source, superOptions][0] == fstype && [fstype, source, superOptions][1] == source
             && [fstype, source, superOptions][2] == superOptions;
    }
    hide Words, Tokens, Separator;
    TokensOfWords(tokens);
    SeparatorAt(tokens, 6 + |optional|);
  }

  // ----- cgroup lines and candidates

  datatype Memory = Memory(version: int, limit: nat, current: nat, limitPath: string, currentPath: string)

  datatype CgroupLine = CgroupLine(hierarchy: string, controllers: string, relPath: string)

  function StripEol(line: string): string {
    var cr, nl := Find(line, '\r'), Find(line, '\n');
    line[..if cr < nl then cr else nl]
  }

  /** hierarchy:controllers:path, the path running to the end of the line. */
  function ParseCgroupLine(line: string): Option<CgroupLine> {
    var first := Find(line, ':');
    if first == |line| then None
    else
      var rest := line[first+1..];
      var second := Find(rest, ':');
      if second == |rest| then None
      else
        var rel := rest[second+1..];
        Some(CgroupLine(line[..first], rest[..second], if rel == "" then "/" else rel))
  }

  function CandidateAt(files: FileSystem, version: int, mount: Mount, rel: string,
                       limitFile: string, currentFile: string): Option<Memory>
  {
    match (CgroupPath(mount.point, mount.root, rel, limitFile, FIELD_SIZE),
           CgroupPath(mount.point, mount.root, rel, currentFile, FIELD_SIZE))
    case (Some(limitPath), Some(currentPath)) =>
      (match (ReadLimit(files, limitPath), ReadCounter(files, currentPath))
       case (Some(limit), Some(current)) => Some(Memory(version, limit, current, limitPath, currentPath))
       case _ => None)
    case _ => None
  }

  /** The one candidate a line can contribute: the unified hierarchy has no controllers, so
      no line qualifies for both versions. */
  function Candidate(files: FileSystem, mounts: Mounts, line: string): Option<Memory> {
    match ParseCgroupLine(line)
    case None => None
    case Some(c) =>
      if c.hierarchy == "0" && c.controllers == "" then
        if mounts.v2.Some?
        then CandidateAt(files, 2, mounts.v2.value, c.relPath, "memory.max", "memory.current") else None
      else if "memory" in Fields(c.controllers, ',') && mounts.v1Memory.Some? then
        CandidateAt(files, 1, mounts.v1Memory.value, c.relPath, "memory.limit_in_bytes", "memory.usage_in_bytes")
      else None
  }

  function Better(best: Option<Memory>, candidate: Option<Memory>): Option<Memory> {
    if candidate.Some? && (best == None || candidate.value.limit < best.value.limit) then candidate else best
  }

  function Best(files: FileSystem, mounts: Mounts, best: Option<Memory>, lines: seq<string>): Option<Memory>
    decreases |lines|
  {
    if lines == [] then best else Best(files, mounts, Better(best, Candidate(files, mounts, lines[0])), lines[1..])
  }

  method ConsiderCandidate(files: FileSystem, best: Option<Memory>, version: int, mount: Mount, rel: string,
                           limitFile: string, currentFile: string) returns (r: Option<Memory>)
    ensures r == Better(best, CandidateAt(files, version, mount, rel, limitFile, currentFile))
  {
    hide CgroupPath, ReadLimit, ReadCounter;
    var limitPath, currentPath := new char[FIELD_SIZE], new char[FIELD_SIZE];
    var ok, limitLen := BuildCgroupPath(limitPath, mount.point, mount.root, rel, limitFile);
    if !ok {
      return best;
    }
    var currentLen;
    ok, currentLen := BuildCgroupPath(currentPath, mount.point, mount.root, rel, currentFile);
    if !ok {
      return best;
    }
    var limit := ReadLimitFile(files, limitPath[..limitLen]);
    if limit == None {
      return best;
    }
    var current := ReadCounterFile(files, currentPath[..currentLen]);
    if current == None {
      return best;
    }
    if best == None || limit.value < best.value.limit {
      r := Some(Memory(version, limit.value, current.value, limitPath[..limitLen], currentPath[..currentLen]));
    } else {
      r := best;
    }
  }

  /** One line of the detection loop. */
  method ConsiderLine(files: FileSystem, mounts: Mounts, best: Option<Memory>, line: string) returns (r: Option<Memory>)
    ensures r == Better(best, Candidate(files, mounts, line))
  {
    hide CandidateAt, Find;
    r := best;
    var first := Find(line, ':');
    if first == |line| {
      return;
    }
    var rest := line[first+1..];
    var second := Find(rest, ':');
    if second == |rest| {
      return;
    }
    var hierarchy, controllers, rel := line[..first], rest[..second], rest[second+1..];
    if rel == "" {
      rel := "/";
    }
    if hierarchy == "0" && controllers == "" && mounts.v2.Some? {
      r := ConsiderCandidate(files, r, 2, mounts.v2.value, rel, "memory.max", "memory.current");
    }
    PartsHoldWords(controllers, "memory");
    var includes := ControllersInclude(controllers, "memory");
    if controllers == "" {
      FieldsOfWord("", ',');
    }
    if includes && mounts.v1Memory.Some? {
      r := ConsiderCandidate(files, r, 1, mounts.v1Memory.value, rel, "memory.limit_in_bytes", "memory.usage_in_bytes");
    }
  }

  // ----- detection

  const MOUNTINFO := "/proc/self/mountinfo"
  const CGROUP := "/proc/self/cgroup"

  /** A line as the loops see it: one fgets result, cut at its end of line. */
  function LineOf(chunk: string): string {
    StripEol(UpToNul(chunk))
  }

  function Lines(chunks: seq<string>): seq<string> {
    seq(|chunks|, i requires 0 <= i < |chunks| => LineOf(chunks[i]))
  }

  function MountsOf(mounts: Mounts, lines: seq<string>): Mounts
    decreases |lines|
  {
    if lines == [] then mounts else MountsOf(AddMount(mounts, ParseFields(Tokens(lines[0], ' '))), lines[1..])
  }

  const NO_MOUNTS := Mounts(None, None)

  function DetectMounts(files: FileSystem): Mounts {
    if MOUNTINFO in files then MountsOf(NO_MOUNTS, Lines(Chunks(files[MOUNTINFO], LINE_SIZE))) else NO_MOUNTS
  }

  function Detect(files: FileSystem): Option<Memory> {
    if DetectMounts(files) == NO_MOUNTS || CGROUP !in files then None
    else Best(files, DetectMounts(files), None, Lines(Chunks(files[CGROUP], LINE_SIZE)))
  }

  /** One fgets call on the file position `pos`. */
  method Fgets(text: string, pos: nat) returns (chunk: string, next: nat)
    requires pos < |text|
    ensures pos < next <= |text| && chunk == text[pos..next]
    ensures Chunks(text[pos..], LINE_SIZE) == [chunk] + Chunks(text[next..], LINE_SIZE)
  {
    var n := FgetsLength(text[pos..], LINE_SIZE);
    next := pos + n;
    chunk := text[pos..next];
    assert text[pos..][..n] == chunk && text[pos..][n..] == text[next..];
  }

  lemma LinesCons(chunk: string, rest: seq<string>)
    ensures Lines([chunk] + rest) == [LineOf(chunk)] + Lines(rest)
  {
  }

  method DetectMountsLoop(files: FileSystem) returns (mounts: Mounts)
    ensures mounts == DetectMounts(files)
  {
    mounts := NO_MOUNTS;
    if MOUNTINFO !in files {
      return;
    }
    hide Chunks, Lines, LineOf, AddMount, ParseFields;
    var text := files[MOUNTINFO];
    var pos := 0;
    ghost var chunks := Chunks(text, LINE_SIZE);
    assert text[0..] == text;
    while pos < |text|
      invariant pos <= |text| && chunks == Chunks(text[pos..], LINE_SIZE)
      invariant MountsOf(mounts, Lines(chunks)) == DetectMounts(files)
    {
      var chunk;
      chunk, pos := Fgets(text, pos);
      chunks := Chunks(text[pos..], LINE_SIZE);
      LinesCons(chunk, chunks);
      MountsOfCons(mounts, LineOf(chunk), Lines(chunks));
      mounts := ParseMountinfoLine(mounts, LineOf(chunk));
    }
    NoChunks(text[pos..]);
  }

  lemma MountsOfCons(mounts: Mounts, line: string, rest: seq<string>)
    ensures MountsOf(mounts, [line] + rest) == MountsOf(AddMount(mounts, ParseFields(Tokens(line, ' '))), rest)
  {
    assert ([line] + rest)[1..] == rest;
  }

  lemma BestCons(files: FileSystem, mounts: Mounts, best: Option<Memory>, line: string, rest: seq<string>)
    ensures Best(files, mounts, best, [line] + rest) ==
            Best(files, mounts, Better(best, Candidate(files, mounts, line)), rest)
  {
    assert ([line] + rest)[1..] == rest;
  }

  lemma NoChunks(text: string)
    requires text == ""
    ensures Lines(Chunks(text, LINE_SIZE)) == []
  {
  }

  method DetectMemory(files: FileSystem) returns (best: Option<Memory>)
    ensures best == Detect(files)
  {
    best := None;
    var mounts := DetectMountsLoop(files);
    if mounts == NO_MOUNTS || CGROUP !in files {
      return;
    }
    hide Chunks, Lines, LineOf, DetectMounts, Candidate, Better;
    var text := files[CGROUP];
    var pos := 0;
    ghost var chunks := Chunks(text, LINE_SIZE);
    assert text[0..] == text;
    while pos < |text|
      invariant pos <= |text| && chunks == Chunks(text[pos..], LINE_SIZE)
      invariant Best(files, mounts, best, Lines(chunks)) == Detect(files)
    {
      var chunk;
      chunk, pos := Fgets(text, pos);
      chunks := Chunks(text[pos..], LINE_SIZE);
      LinesCons(chunk, chunks);
      BestCons(files, mounts, best, LineOf(chunk), Lines(chunks));
      best := ConsiderLine(files, mounts, best, LineOf(chunk));
    }
    NoChunks(text[pos..]);
  }

  // ----- the selection

  /** `m` comes from line `k`, no candidate is smaller, and none before it is as small. */
  ghost predicate FirstLeast(files: FileSystem, mounts: Mounts, lines: seq<string>, k: nat, m: Memory) {
    && k < |lines| && Candidate(files, mounts, lines[k]) == Some(m)
    && forall i :: 0 <= i < |lines| && Candidate(files, mounts, lines[i]).Some? ==>
         var other := Candidate(files, mounts, lines[i]).value;
         m.limit <= other.limit && (i < k ==> m.limit < other.limit)
  }

  lemma {:induction false} BestFrom(files: FileSystem, mounts: Mounts, best: Option<Memory>, lines: seq<string>)
    ensures var r := Best(files, mounts, best, lines);
            && (r == None <==>
                  best == None && forall i :: 0 <= i < |lines| ==> Candidate(files, mounts, lines[i]) == None)
            && (r.Some? ==>
                  || (r == best && forall i :: 0 <= i < |lines| && Candidate(files, mounts, lines[i]).Some? ==>
                        r.value.limit <= Candidate(files, mounts, lines[i]).value.limit)
                  || ((best.Some? ==> r.value.limit < best.value.limit) &&
                      exists k: nat :: FirstLeast(files, mounts, lines, k, r.value)))
    decreases |lines|
  {
    hide Candidate;
    if lines != [] {
      var rest, next := lines[1..], Better(best, Candidate(files, mounts, lines[0]));
      BestFrom(files, mounts, next, rest);
      assert forall i :: 1 <= i < |lines| ==> lines[i] == rest[i-1];
      var r := Best(files, mounts, best, lines);
      if r.Some? {
        if k: nat :| FirstLeast(files, mounts, rest, k, r.value) {
          if next.Some? ==> r.value.limit < next.value.limit {
            assert FirstLeast(files, mounts, lines, k + 1, r.value);
          }
        }
        if r == next && r != best {
          assert FirstLeast(files, mounts, lines, 0, r.value);
        }
      }
    }
  }

  /** Detection reports the first candidate of least limit, a finite one, and nothing exactly
      when no line offers a candidate. */
  lemma DetectionIsFirstLeast(files: FileSystem)
    requires DetectMounts(files) != NO_MOUNTS && CGROUP in files
    ensures var mounts, lines := DetectMounts(files), Lines(Chunks(files[CGROUP], LINE_SIZE));
            && (Detect(files) == None <==> forall i :: 0 <= i < |lines| ==> Candidate(files, mounts, lines[i]) == None)
            && (Detect(files).Some? ==>
                  (exists k: nat :: FirstLeast(files, mounts, lines, k, Detect(files).value)) &&
                  0 < Detect(files).value.limit < SENTINEL)
  {
    hide DetectMounts, Lines, Chunks, Candidate, Best;
    var mounts, lines := DetectMounts(files), Lines(Chunks(files[CGROUP], LINE_SIZE));
    BestFrom(files, mounts, None, lines);
    assert Detect(files) == Best(files, mounts, None, lines);
    if Detect(files).Some? {
      var k: nat :| FirstLeast(files, mounts, lines, k, Detect(files).value);
      CandidateIsFinite(files, mounts, lines[k]);
    }
  }

  lemma CandidateIsFinite(files: FileSystem, mounts: Mounts, line: string)
    requires Candidate(files, mounts, line).Some?
    ensures 0 < Candidate(files, mounts, line).value.limit < SENTINEL
  {
    hide ReadCounter, CgroupPath, ReadLimit, Fields, ParseCgroupLine;
  }

  lemma SomeLimitAtMost(files: FileSystem, mounts: Mounts, lines: seq<string>, permuted: seq<string>)
    requires multiset(lines) == multiset(permuted)
    requires Best(files, mounts, None, lines).Some?
    ensures var a, b := Best(files, mounts, None, lines), Best(files, mounts, None, permuted);
            b.Some? && b.value.limit <= a.value.limit
  {
    hide Candidate, Best;
    BestFrom(files, mounts, None, lines);
    BestFrom(files, mounts, None, permuted);
    var k: nat :| FirstLeast(files, mounts, lines, k, Best(files, mounts, None, lines).value);
    assert lines[k] in multiset(permuted);
    var j :| 0 <= j < |permuted| && permuted[j] == lines[k];
    assert Candidate(files, mounts, permuted[j]).Some?;
  }

  /** The reported limit does not depend on the order of the cgroup lines. */
  lemma LimitIgnoresLineOrder(files: FileSystem, mounts: Mounts, lines: seq<string>, permuted: seq<string>)
    requires multiset(lines) == multiset(permuted)
    ensures var a, b := Best(files, mounts, None, lines), Best(files, mounts, None, permuted);
            (a == None <==> b == None) && (a.Some? && b.Some? ==> a.value.limit == b.value.limit)
  {
    if Best(files, mounts, None, lines).Some? {
      SomeLimitAtMost(files, mounts, lines, permuted);
    }
    if Best(files, mounts, None, permuted).Some? {
      SomeLimitAtMost(files, mounts, permuted, lines);
    }
  }
}
