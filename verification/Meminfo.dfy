/** The virtual /proc/meminfo: three lines rewritten to the container's numbers, every other
    line preserved, in a bounded buffer. */
module Meminfo {
  import opened Text
  import opened Numbers
  import opened Cgroup
  import opened MemoryView

  /** Size of the temporary a rewritten line is printed to. */
  const TEMP_SIZE := 128

  datatype Target = Total | Available | Free

  function Key(t: Target): string {
    match t
    case Total => "MemTotal:"
    case Available => "MemAvailable:"
    case Free => "MemFree:"
  }

  /** The line a chunk rewrites, if any; no key is a prefix of another. */
  function TargetOf(line: string): Option<Target> {
    if Key(Total) <= line then Some(Total)
    else if Key(Available) <= line then Some(Available)
    else if Key(Free) <= line then Some(Free)
    else None
  }

  function Kilobytes(s: Snapshot, t: Target): nat {
    if t == Total then s.total / 1024 else s.available / 1024
  }

  /** printf's %16llu. */
  function Padded(n: nat): (s: string)
    ensures |s| == if |Print(n)| < 16 then 16 else |Print(n)|
  {
    var digits := Print(n);
    if |digits| < 16 then seq(16 - |digits|, _ => ' ') + digits else digits
  }

  function RewrittenLine(t: Target, kb: nat, newline: bool): string {
    Key(t) + (Padded(kb) + (if newline then " kB\n" else " kB"))
  }

  function Rewrite(s: Snapshot, chunk: string): string {
    match TargetOf(chunk)
    case None => chunk
    case Some(t) => RewrittenLine(t, Kilobytes(s, t), '\n' in chunk)
  }

  function Flatten(parts: seq<string>): string {
    if parts == [] then "" else parts[0] + Flatten(parts[1..])
  }

  function RewriteEach(s: Snapshot, chunks: seq<string>): (r: seq<string>)
    ensures |r| == |chunks| && forall i :: 0 <= i < |chunks| ==> r[i] == Rewrite(s, UpToNul(chunks[i]))
  {
    seq(|chunks|, i requires 0 <= i < |chunks| => Rewrite(s, UpToNul(chunks[i])))
  }

  /** The whole rewritten text. */
  function Rewritten(s: Snapshot, text: string): string {
    Flatten(RewriteEach(s, Chunks(text, LINE_SIZE)))
  }

  predicate Is64Bit(s: Snapshot) {
    s.total <= U64_MAX && s.available <= U64_MAX
  }

  // ----- the program

  /** Rewritten lines never reach the temporary's size. */
  lemma RewrittenLineFits(s: Snapshot, t: Target, newline: bool)
    requires Is64Bit(s)
    ensures |RewrittenLine(t, Kilobytes(s, t), newline)| < TEMP_SIZE
  {
    PrintLengths(Kilobytes(s, t));
  }

  method AppendBytes(buf: array<char>, used: nat, data: string) returns (ok: bool, newUsed: nat)
    requires used <= buf.Length
    modifies buf
    ensures ok <==> used + |data| <= buf.Length
    ensures newUsed == if ok then used + |data| else used
    ensures ok ==> buf[..newUsed] == old(buf[..used]) + data
  {
    newUsed := used;
    if |data| > buf.Length || used > buf.Length - |data| {
      return false, used;
    }
    CopyBytes(buf, used, data);
    newUsed := used + |data|;
    ok := true;
  }

  method AppendRewrittenLine(buf: array<char>, used: nat, t: Target, kb: nat, newline: bool)
    returns (ok: bool, newUsed: nat)
    requires used <= buf.Length
    modifies buf
    ensures ok <==> |RewrittenLine(t, kb, newline)| < TEMP_SIZE && used + |RewrittenLine(t, kb, newline)| <= buf.Length
    ensures newUsed == if ok then used + |RewrittenLine(t, kb, newline)| else used
    ensures ok ==> buf[..newUsed] == old(buf[..used]) + RewrittenLine(t, kb, newline)
  {
    hide Padded, Key;
    var line := RewrittenLine(t, kb, newline);
    if |line| >= TEMP_SIZE {
      return false, used;
    }
    ok, newUsed := AppendBytes(buf, used, line);
  }

  lemma RewriteEachCons(s: Snapshot, chunk: string, rest: seq<string>)
    ensures Flatten(RewriteEach(s, [chunk] + rest)) == Rewrite(s, UpToNul(chunk)) + Flatten(RewriteEach(s, rest))
  {
    hide Rewrite, UpToNul;
    var all := RewriteEach(s, [chunk] + rest);
    assert all == [Rewrite(s, UpToNul(chunk))] + RewriteEach(s, rest);
    assert all[1..] == RewriteEach(s, rest);
  }

  method AppendChunk(s: Snapshot, buf: array<char>, used: nat, line: string) returns (ok: bool, newUsed: nat)
    requires used <= buf.Length && Is64Bit(s)
    modifies buf
    ensures ok <==> used + |Rewrite(s, line)| <= buf.Length
    ensures newUsed == if ok then used + |Rewrite(s, line)| else used
    ensures ok ==> buf[..newUsed] == old(buf[..used]) + Rewrite(s, line)
  {
    hide RewrittenLine;
    var newline := '\n' in line;
    if Key(Total) <= line {
      RewrittenLineFits(s, Total, newline);
      ok, newUsed := AppendRewrittenLine(buf, used, Total, s.total / 1024, newline);
    } else if Key(Available) <= line {
      RewrittenLineFits(s, Available, newline);
      ok, newUsed := AppendRewrittenLine(buf, used, Available, s.available / 1024, newline);
    } else if Key(Free) <= line {
      RewrittenLineFits(s, Free, newline);
      ok, newUsed := AppendRewrittenLine(buf, used, Free, s.available / 1024, newline);
    } else {
      ok, newUsed := AppendBytes(buf, used, line);
    }
  }

  /** The rewriting loop. `text` is what the real file delivers. */
  method Build(s: Snapshot, text: string, buf: array<char>) returns (ok: bool, used: nat)
    requires Is64Bit(s)
    modifies buf
    ensures ok <==> |Rewritten(s, text)| <= buf.Length
    ensures ok ==> used == |Rewritten(s, text)| && buf[..used] == Rewritten(s, text)
  {
    hide Rewrite, Chunks, RewriteEach, UpToNul;
    var pos := 0;
    used := 0;
    ghost var chunks := Chunks(text, LINE_SIZE);
    ghost var goal := Rewritten(s, text);
    assert text[0..] == text;
    while pos < |text|
      invariant pos <= |text| && used <= buf.Length && chunks == Chunks(text[pos..], LINE_SIZE)
      invariant goal == buf[..used] + Flatten(RewriteEach(s, chunks))
    {
      var chunk;
      chunk, pos := Fgets(text, pos);
      chunks := Chunks(text[pos..], LINE_SIZE);
      RewriteEachCons(s, chunk, chunks);
      ghost var part := Rewrite(s, UpToNul(chunk));
      assert goal == buf[..used] + part + Flatten(RewriteEach(s, chunks));
      ok, used := AppendChunk(s, buf, used, UpToNul(chunk));
      if !ok {
        return;
      }
    }
    NothingLeft(s, text[pos..]);
    ok := true;
  }

  lemma NothingLeft(s: Snapshot, text: string)
    requires text == ""
    ensures Flatten(RewriteEach(s, Chunks(text, LINE_SIZE))) == ""
  {
  }

  // ----- lines

  /** One line of text: newlines only at its end. */
  predicate IsLine(l: string) {
    l != "" && '\n' !in l[..|l|-1]
  }

  /** A text as its lines, each with its newline. */
  function TextLines(text: string): (ls: seq<string>)
    ensures forall i :: 0 <= i < |ls| ==> ls[i] != ""
    decreases |text|
  {
    if text == "" then []
    else
      var k := Find(text, '\n');
      if k == |text| then [text] else [text[..k+1]] + TextLines(text[k+1..])
  }

  function FirstLength(text: string): (n: nat)
    ensures n <= |text| && (text != "" ==> n > 0)
  {
    var k := Find(text, '\n');
    if k < |text| then k + 1 else |text|
  }

  lemma FirstLine(text: string)
    requires text != ""
    ensures var n := FirstLength(text);
            && TextLines(text) == [text[..n]] + TextLines(text[n..]) && text[..n] + text[n..] == text
            && IsLine(text[..n]) && (text[n..] != "" ==> text[n-1] == '\n')
  {
    var k, n := Find(text, '\n'), FirstLength(text);
    assert text[..n][..n-1] == text[..n-1];
    if k == |text| {
      assert text[..n] == text && text[n..] == "";
    }
  }

  /** A line that ends, or that nothing follows, is the first line of what it starts. */
  lemma LineInFront(l: string, rest: string)
    requires IsLine(l) && (rest != "" ==> l[|l|-1] == '\n')
    ensures FirstLength(l + rest) == |l| && TextLines(l + rest) == [l] + TextLines(rest)
  {
    var text := l + rest;
    assert text[..|l|] == l && text[|l|..] == rest;
    assert l == l[..|l|-1] + [l[|l|-1]];
    if l[|l|-1] == '\n' {
      assert text[..|l|-1] == l[..|l|-1];
      FindUnique(text, '\n', |l|-1);
    } else {
      assert text == l;
      FindUnique(text, '\n', |l|);
    }
  }

  lemma {:induction false} LinesMakeText(text: string)
    ensures Flatten(TextLines(text)) == text
    decreases |text|
  {
    hide TextLines, FirstLength, IsLine;
    if text == "" {
      NoLines();
    } else {
      FirstLine(text);
      var n := FirstLength(text);
      LinesMakeText(text[n..]);
      FlattenCons(text[..n], TextLines(text[n..]));
    }
  }

  lemma NoLines()
    ensures TextLines("") == [] && Chunks("", LINE_SIZE) == []
  {
  }

  lemma FlattenCons(l: string, ls: seq<string>)
    ensures Flatten([l] + ls) == l + Flatten(ls)
  {
    assert ([l] + ls)[1..] == ls;
  }

  // ----- lines and chunks

  const CHUNK := LINE_SIZE - 1

  lemma FgetsTakesLine(text: string)
    ensures FgetsLength(text, LINE_SIZE) == if FirstLength(text) < LINE_SIZE then FirstLength(text) else CHUNK
  {
  }

  /** The first chunk of a text that starts with a line: the line, or its first 1023 bytes. */
  lemma FirstChunk(l: string, rest: string)
    requires IsLine(l) && (rest != "" ==> l[|l|-1] == '\n')
    ensures |l| < LINE_SIZE ==> Chunks(l + rest, LINE_SIZE) == [l] + Chunks(rest, LINE_SIZE)
    ensures |l| >= LINE_SIZE ==>
              && Chunks(l + rest, LINE_SIZE) == [l[..CHUNK]] + Chunks(l[CHUNK..] + rest, LINE_SIZE)
              && '\n' !in l[..CHUNK] && IsLine(l[..CHUNK]) && IsLine(l[CHUNK..])
              && l[CHUNK..][|l[CHUNK..]|-1] == l[|l|-1]
  {
    hide TextLines, FirstLength, FgetsLength;
    var text := l + rest;
    LineInFront(l, rest);
    FgetsTakesLine(text);
    assert text[..|l|] == l && text[|l|..] == rest;
    if |l| >= LINE_SIZE {
      assert text[..CHUNK] == l[..CHUNK] && text[CHUNK..] == l[CHUNK..] + rest;
      assert l[..CHUNK] == l[..|l|-1][..CHUNK];
      var below := l[CHUNK..];
      assert below[..|below|-1] == l[..|l|-1][CHUNK..];
    }
  }

  lemma FirstChunkRewritten(s: Snapshot, l: string, rest: string)
    requires IsLine(l) && (rest != "" ==> l[|l|-1] == '\n')
    ensures |l| < LINE_SIZE ==> Rewritten(s, l + rest) == Rewrite(s, UpToNul(l)) + Rewritten(s, rest)
    ensures |l| >= LINE_SIZE ==>
              Rewritten(s, l + rest) == Rewrite(s, UpToNul(l[..CHUNK])) + Rewritten(s, l[CHUNK..] + rest)
  {
    hide Rewrite, Chunks, IsLine, RewriteEach, UpToNul;
    FirstChunk(l, rest);
    if |l| < LINE_SIZE {
      RewriteEachCons(s, l, Chunks(rest, LINE_SIZE));
    } else {
      RewriteEachCons(s, l[..CHUNK], Chunks(l[CHUNK..] + rest, LINE_SIZE));
    }
  }

  lemma WithoutNul(s: string)
    requires '\0' !in s
    ensures UpToNul(s) == s
  {
    FindUnique(s, '\0', |s|);
    assert s[..|s|] == s;
  }

  lemma RewrittenNothing(s: Snapshot)
    ensures Rewritten(s, "") == ""
  {
  }

  lemma CutLine(l: string)
    requires IsLine(l) && |l| >= LINE_SIZE
    ensures '\n' !in l[..CHUNK] && IsLine(l[..CHUNK]) && IsLine(l[CHUNK..])
    ensures l[CHUNK..][|l[CHUNK..]|-1] == l[|l|-1]
  {
    hide IsLine;
    FirstChunk(l, "");
  }

  /** The two ways a single line is rewritten: whole, or first chunk first. A chunk counts up to
      its first NUL byte. */
  lemma RewrittenFirst(s: Snapshot, l: string)
    requires IsLine(l)
    ensures |l| < LINE_SIZE ==> Rewritten(s, l) == Rewrite(s, UpToNul(l))
    ensures |l| >= LINE_SIZE ==> Rewritten(s, l) == Rewrite(s, UpToNul(l[..CHUNK])) + Rewritten(s, l[CHUNK..])
  {
    hide Rewrite, Rewritten, IsLine, UpToNul;
    FirstChunkRewritten(s, l, "");
    RewrittenNothing(s);
    assert l + "" == l && Rewrite(s, UpToNul(l)) + "" == Rewrite(s, UpToNul(l));
    if |l| >= LINE_SIZE {
      assert l[CHUNK..] + "" == l[CHUNK..];
    }
  }

  lemma RewrittenOneLine(s: Snapshot, l: string)
    requires IsLine(l) && '\0' !in l
    ensures |l| < LINE_SIZE ==> Rewritten(s, l) == Rewrite(s, l)
    ensures |l| >= LINE_SIZE ==>
              && Rewritten(s, l) == Rewrite(s, l[..CHUNK]) + Rewritten(s, l[CHUNK..])
              && '\n' !in l[..CHUNK] && IsLine(l[..CHUNK]) && IsLine(l[CHUNK..])
              && '\0' !in l[..CHUNK] && '\0' !in l[CHUNK..]
  {
    hide Rewrite, Rewritten, IsLine, UpToNul;
    RewrittenFirst(s, l);
    WithoutNul(l);
    if |l| >= LINE_SIZE {
      CutLine(l);
      WithoutNul(l[..CHUNK]);
    }
  }

  /** Rewriting acts on each line by itself. */
  lemma {:induction false} RewrittenSplits(s: Snapshot, l: string, rest: string)
    requires IsLine(l) && (rest != "" ==> l[|l|-1] == '\n')
    ensures Rewritten(s, l + rest) == Rewritten(s, l) + Rewritten(s, rest)
    decreases |l|
  {
    hide Rewrite, Rewritten, IsLine, UpToNul;
    FirstChunkRewritten(s, l, rest);
    RewrittenFirst(s, l);
    if |l| >= LINE_SIZE {
      CutLine(l);
      RewrittenSplits(s, l[CHUNK..], rest);
    }
  }

  // ----- what a rewritten line is

  lemma PaddedIsPlain(n: nat)
    ensures '\n' !in Padded(n) && '\0' !in Padded(n)
  {
    var digits := Print(n);
    assert forall i :: 0 <= i < |digits| ==> digits[i] != '\n' && digits[i] != '\0';
  }

  lemma KeyIsPlain(t: Target)
    ensures '\n' !in Key(t) && '\0' !in Key(t)
  {
  }

  lemma LineOfBody(body: string, newline: bool)
    requires body != "" && '\n' !in body
    ensures var l := body + (if newline then "\n" else "");
            IsLine(l) && (newline <==> l[|l|-1] == '\n') && (newline <==> '\n' in l)
  {
    var l := body + (if newline then "\n" else "");
    assert newline ==> l[..|l|-1] == body;
    assert !newline ==> l == body && l[..|l|-1] == body[..|body|-1];
    assert l[|l|-1] in l;
  }

  lemma RewrittenLineBody(t: Target, kb: nat, newline: bool)
    ensures RewrittenLine(t, kb, newline) == Key(t) + (Padded(kb) + " kB") + (if newline then "\n" else "")
    ensures Key(t) <= RewrittenLine(t, kb, newline)
  {
    hide Padded, Key;
    assert " kB" + "\n" == " kB\n";
    assert Key(t) + (Padded(kb) + (" kB" + "\n")) == Key(t) + (Padded(kb) + " kB") + "\n";
    assert Key(t) + (Padded(kb) + " kB") == Key(t) + (Padded(kb) + " kB") + "";
  }

  lemma RewrittenLineShape(t: Target, kb: nat, newline: bool)
    ensures var l := RewrittenLine(t, kb, newline);
            && IsLine(l) && (newline <==> l[|l|-1] == '\n') && (newline <==> '\n' in l)
            && '\0' !in l && TargetOf(l) == Some(t)
  {
    PaddedIsPlain(kb);
    KeyIsPlain(t);
    hide Padded, Key, RewrittenLine, TargetOf;
    RewrittenLineBody(t, kb, newline);
    LineOfBody(Key(t) + (Padded(kb) + " kB"), newline);
    KeysDiffer(t, RewrittenLine(t, kb, newline));
  }

  lemma KeysDiffer(t: Target, l: string)
    requires Key(t) <= l
    ensures TargetOf(l) == Some(t)
  {
    assert l[3] == Key(t)[3] && l[4] == Key(t)[4];
  }

  lemma EndOfLine(l: string)
    requires IsLine(l)
    ensures '\n' in l <==> l[|l|-1] == '\n'
  {
    assert l == l[..|l|-1] + [l[|l|-1]];
  }

  /** A target line becomes a line with the same ending; any other line stays as it is; and a
      second rewriting with the same snapshot changes nothing. */
  lemma RewriteShape(s: Snapshot, line: string)
    requires IsLine(line) && '\0' !in line
    ensures var r := Rewrite(s, line);
            && IsLine(r) && (r[|r|-1] == '\n' <==> line[|line|-1] == '\n') && '\0' !in r
            && TargetOf(r) == TargetOf(line) && Rewrite(s, r) == r
            && (Is64Bit(s) ==> |r| < |line| + TEMP_SIZE && (|line| < LINE_SIZE ==> |r| < LINE_SIZE))
  {
    hide TargetOf, RewrittenLine, IsLine;
    EndOfLine(line);
    var target := TargetOf(line);
    if target.Some? {
      var newline := '\n' in line;
      RewrittenLineShape(target.value, Kilobytes(s, target.value), newline);
      if Is64Bit(s) {
        RewrittenLineFits(s, target.value, newline);
      }
    }
  }

  // ----- the main results

  /** A line is rewritten to one line with the same ending, however long it is. */
  lemma {:induction false} RewrittenIsLine(s: Snapshot, l: string)
    requires IsLine(l) && '\0' !in l
    ensures var r := Rewritten(s, l); IsLine(r) && (r[|r|-1] == '\n' <==> l[|l|-1] == '\n') && '\0' !in r
    ensures Is64Bit(s) ==> |Rewritten(s, l)| < |l| + TEMP_SIZE
    decreases |l|
  {
    hide Rewrite, Rewritten, TargetOf;
    RewrittenOneLine(s, l);
    if |l| < LINE_SIZE {
      RewriteShape(s, l);
    } else {
      RewriteShape(s, l[..CHUNK]);
      RewrittenIsLine(s, l[CHUNK..]);
      LineBehind(Rewrite(s, l[..CHUNK]), Rewritten(s, l[CHUNK..]));
    }
  }

  lemma LineBehind(a: string, b: string)
    requires IsLine(a) && a[|a|-1] != '\n' && IsLine(b)
    ensures IsLine(a + b) && '\n' !in a
  {
    assert a == a[..|a|-1] + [a[|a|-1]];
    assert (a + b)[..|a + b|-1] == a + b[..|b|-1];
  }

  function RewriteLines(s: Snapshot, ls: seq<string>): (r: seq<string>)
    ensures |r| == |ls| && forall i :: 0 <= i < |ls| ==> r[i] == Rewritten(s, ls[i])
  {
    seq(|ls|, i requires 0 <= i < |ls| => Rewritten(s, ls[i]))
  }

  /** The last chunk of the line holds no NUL byte, which would end the line buffer's string in
      front of the newline. */
  predicate EndsWhole(l: string)
    decreases |l|
  {
    if |l| < LINE_SIZE then '\0' !in l else EndsWhole(l[CHUNK..])
  }

  /** Some chunk of the line does not start with a NUL byte. */
  predicate LeavesSomething(l: string)
    decreases |l|
  {
    UpToNul(if |l| < LINE_SIZE then l else l[..CHUNK]) != "" || (|l| >= LINE_SIZE && LeavesSomething(l[CHUNK..]))
  }

  /** What a chunk counts for, rewritten: a line if the chunk is whole, no newline if it is not. */
  lemma RewrittenChunk(s: Snapshot, c: string)
    requires IsLine(c)
    ensures var r := Rewrite(s, UpToNul(c));
            && '\0' !in r && (r == "" <==> UpToNul(c) == "")
            && (if '\0' !in c && c[|c|-1] == '\n' then IsLine(r) && r[|r|-1] == '\n' else '\n' !in r)
  {
    hide Rewrite, TargetOf;
    var u := UpToNul(c);
    if '\0' !in c {
      WithoutNul(c);
    } else {
      NulCuts(c);
    }
    if u == "" {
      NothingRewritten(s);
    } else {
      RewriteShape(s, u);
      EndOfLine(u);
      EndOfLine(Rewrite(s, u));
    }
  }

  lemma NothingRewritten(s: Snapshot)
    ensures Rewrite(s, "") == ""
  {
  }

  lemma NulCuts(c: string)
    requires IsLine(c) && '\0' in c
    ensures var u := UpToNul(c); '\n' !in u && '\0' !in u && (u != "" ==> IsLine(u))
  {
    var k := Find(c, '\0');
    assert k < |c|;
    assert c[..k] == c[..|c|-1][..k];
  }

  /** A rewritten line, NUL bytes or not: a line with its newline, or text without any. */
  lemma {:induction false} RewrittenLineOrLess(s: Snapshot, l: string)
    requires IsLine(l)
    ensures var r := Rewritten(s, l);
            && '\0' !in r && (r == "" <==> !LeavesSomething(l))
            && (if EndsWhole(l) && l[|l|-1] == '\n' then IsLine(r) && r[|r|-1] == '\n' else '\n' !in r)
    decreases |l|
  {
    hide Rewrite, Rewritten, IsLine, UpToNul;
    RewrittenFirst(s, l);
    if |l| < LINE_SIZE {
      RewrittenChunk(s, l);
    } else {
      CutLine(l);
      RewrittenChunk(s, l[..CHUNK]);
      RewrittenLineOrLess(s, l[CHUNK..]);
      WithoutNewline(Rewrite(s, UpToNul(l[..CHUNK])), Rewritten(s, l[CHUNK..]));
    }
  }

  lemma WithoutNewline(a: string, b: string)
    requires '\n' !in a
    ensures IsLine(b) ==> IsLine(a + b) && (a + b)[|a + b|-1] == b[|b|-1]
  {
    if IsLine(b) {
      assert (a + b)[..|a + b|-1] == a + b[..|b|-1];
    }
  }

  /** Every line but the last keeps its newline, and the last one does not vanish. */
  predicate KeepsLines(ls: seq<string>) {
    (forall i :: 0 <= i < |ls| - 1 ==> EndsWhole(ls[i])) && (ls != [] ==> LeavesSomething(ls[|ls|-1]))
  }

  /** Text without a newline in front of a text adds nothing to its lines, except that there
      must be one to hold it. */
  lemma PrefixAddsNoLine(a: string, text: string)
    requires '\n' !in a
    ensures |TextLines(a + text)| == if a != "" && text == "" then 1 else |TextLines(text)|
  {
    hide TextLines, IsLine, FirstLength;
    if text == "" {
      NoLines();
      assert a + text == a && a + "" == a;
      if a != "" {
        LineWithoutEnd(a);
        LineInFront(a, "");
      }
    } else {
      FirstLine(text);
      var l, rest := text[..FirstLength(text)], text[FirstLength(text)..];
      WithoutNewline(a, l);
      assert a + text == (a + l) + rest;
      LineInFront(a + l, rest);
    }
  }

  /** The lines of the rewritten text are the rewritten lines, one for one and in order, exactly
      when no NUL byte swallows a line's end; otherwise there are fewer. */
  lemma {:induction false} RewritesLineByLine(s: Snapshot, text: string)
    ensures '\0' !in Rewritten(s, text)
    ensures |TextLines(Rewritten(s, text))| <= |TextLines(text)|
    ensures TextLines(Rewritten(s, text)) == RewriteLines(s, TextLines(text)) <==> KeepsLines(TextLines(text))
    ensures |TextLines(Rewritten(s, text))| == |TextLines(text)| <==> KeepsLines(TextLines(text))
    decreases |text|
  {
    hide Rewritten, TextLines, FirstLength, IsLine, EndsWhole, LeavesSomething;
    if text == "" {
      RewrittenNothing(s);
      NoLines();
    } else {
      FirstLine(text);
      var n := FirstLength(text);
      var l, rest := text[..n], text[n..];
      RewrittenSplits(s, l, rest);
      RewrittenLineOrLess(s, l);
      RewritesLineByLine(s, rest);
      FirstLineKept(s, l, rest);
      if rest == "" {
        RewrittenNothing(s);
        NoLines();
        assert RewriteLines(s, TextLines(rest)) == [];
      }
      SameFirst(Rewritten(s, l), TextLines(Rewritten(s, rest)), RewriteLines(s, TextLines(rest)));
      assert RewriteLines(s, [l] + TextLines(rest)) == [Rewritten(s, l)] + RewriteLines(s, TextLines(rest));
    }
  }

  lemma SameFirst(l: string, a: seq<string>, b: seq<string>)
    ensures [l] + a == [l] + b <==> a == b
  {
    assert ([l] + a)[1..] == a && ([l] + b)[1..] == b;
  }

  /** The first line's part in that. */
  lemma FirstLineKept(s: Snapshot, l: string, rest: string)
    requires IsLine(l) && (rest != "" ==> l[|l|-1] == '\n')
    requires |TextLines(Rewritten(s, rest))| <= |TextLines(rest)|
    ensures var after := TextLines(Rewritten(s, l) + Rewritten(s, rest));
            var kept := if rest == "" then LeavesSomething(l) else EndsWhole(l);
            && (kept ==> after == [Rewritten(s, l)] + TextLines(Rewritten(s, rest)))
            && (!kept ==> |after| < 1 + |TextLines(rest)|)
    ensures KeepsLines([l] + TextLines(rest)) <==>
            (if rest == "" then LeavesSomething(l) else EndsWhole(l)) && (rest != "" ==> KeepsLines(TextLines(rest)))
  {
    hide Rewritten, IsLine, EndsWhole, LeavesSomething;
    RewrittenLineOrLess(s, l);
    KeepsLinesCons(l, rest);
    var r := Rewritten(s, l);
    if rest == "" {
      RewrittenNothing(s);
      NoLines();
      assert r + "" == r;
      if r != "" {
        LineWithoutEnd(r);
        LineInFront(r, "");
      }
    } else if EndsWhole(l) {
      LineInFront(r, Rewritten(s, rest));
    } else {
      PrefixAddsNoLine(r, Rewritten(s, rest));
      SomeLines(rest);
    }
  }

  lemma LineWithoutEnd(r: string)
    requires r != ""
    ensures '\n' !in r ==> IsLine(r)
  {
  }

  lemma SomeLines(text: string)
    requires text != ""
    ensures |TextLines(text)| >= 1
  {
  }

  lemma KeepsLinesCons(l: string, rest: string)
    ensures KeepsLines([l] + TextLines(rest)) <==>
            (if rest == "" then LeavesSomething(l) else EndsWhole(l)) && (rest != "" ==> KeepsLines(TextLines(rest)))
  {
    hide EndsWhole, LeavesSomething;
    var ls := TextLines(rest);
    var all := [l] + ls;
    if rest == "" {
      NoLines();
    } else {
      SomeLines(rest);
      assert forall i :: 1 <= i < |all| ==> all[i] == ls[i-1];
      assert all[0] == l;
      if KeepsLines(all) {
        forall i | 0 <= i < |ls| - 1
          ensures EndsWhole(ls[i])
        {
          assert all[i+1] == ls[i];
        }
      }
    }
  }

  /** Without NUL bytes nothing is swallowed. */
  lemma {:induction false} PlainTextKeepsLines(text: string)
    requires '\0' !in text
    ensures KeepsLines(TextLines(text))
    decreases |text|
  {
    hide TextLines, FirstLength, IsLine, EndsWhole, LeavesSomething;
    if text == "" {
      NoLines();
    } else {
      FirstLine(text);
      var n := FirstLength(text);
      PlainTextKeepsLines(text[n..]);
      KeepsLinesCons(text[..n], text[n..]);
      PlainLine(text[..n]);
    }
  }

  lemma {:induction false} PlainLine(l: string)
    requires '\0' !in l && l != ""
    ensures EndsWhole(l) && LeavesSomething(l)
    decreases |l|
  {
    if |l| < LINE_SIZE {
      WithoutNul(l);
    } else {
      WithoutNul(l[..CHUNK]);
      PlainLine(l[CHUNK..]);
    }
  }

  /** What one of these lines becomes: a target line is printed anew with the same ending, any
      other one is preserved; both hold for every line that the line buffer does not cut and
      that no NUL byte cuts. */
  lemma ShortLineRewritten(s: Snapshot, text: string, i: nat)
    requires KeepsLines(TextLines(text)) && i < |TextLines(text)| && |TextLines(text)[i]| < LINE_SIZE
    ensures i < |TextLines(Rewritten(s, text))|
    ensures var before, after := UpToNul(TextLines(text)[i]), TextLines(Rewritten(s, text))[i];
            after == Rewrite(s, before) && (Is64Bit(s) ==> ShowsLine(s, before, after))
    ensures '\0' !in TextLines(text)[i] ==> UpToNul(TextLines(text)[i]) == TextLines(text)[i]
  {
    hide Rewrite, Rewritten, TextLines, UpToNul, KeepsLines, ShowsLine;
    RewritesLineByLine(s, text);
    if Is64Bit(s) {
      ReportsSnapshot(s, UpToNul(TextLines(text)[i]));
    }
    LineOfText(text, i);
    RewrittenFirst(s, TextLines(text)[i]);
    if '\0' !in TextLines(text)[i] {
      WithoutNul(TextLines(text)[i]);
    }
  }

  lemma {:induction false} LineOfText(text: string, i: nat)
    requires i < |TextLines(text)|
    ensures IsLine(TextLines(text)[i]) && ('\0' !in text ==> '\0' !in TextLines(text)[i])
    decreases |text|
  {
    hide TextLines, FirstLength, IsLine;
    if text == "" {
      NoLines();
    } else {
      FirstLine(text);
      var n := FirstLength(text);
      if i > 0 {
        LineOfText(text[n..], i - 1);
      }
    }
  }

  // ----- when rewriting twice is rewriting once

  /** No chunk of the line that starts with a target key is cut, unless only the newline is
      cut off: then the newline simply moves behind the number. */
  predicate Uncut(line: string)
    decreases |line|
  {
    |line| < LINE_SIZE ||
    if TargetOf(line[..CHUNK]).Some? then line[CHUNK..] == "\n" else Uncut(line[CHUNK..])
  }

  lemma {:induction false} LineIdempotentIff(s: Snapshot, l: string)
    requires IsLine(l) && '\0' !in l && Is64Bit(s)
    ensures Rewritten(s, Rewritten(s, l)) == Rewritten(s, l) <==> Uncut(l)
    decreases |l|
  {
    hide Rewrite, Rewritten, TargetOf;
    RewrittenOneLine(s, l);
    if |l| < LINE_SIZE {
      RewriteShape(s, l);
      RewrittenOneLine(s, Rewrite(s, l));
    } else {
      var c, rest := l[..CHUNK], l[CHUNK..];
      var u := Rewritten(s, rest);
      RewrittenIsLine(s, rest);
      RewriteShape(s, c);
      if TargetOf(c) == None {
        UntargetedStays(s, c);
        LineBehind(c, u);
        RewrittenOneLine(s, c + u);
        assert (c + u)[..CHUNK] == c && (c + u)[CHUNK..] == u;
        LineIdempotentIff(s, rest);
        assert c + Rewritten(s, u) == c + u <==> Rewritten(s, u) == u by {
          SameBehind(c, Rewritten(s, u), u);
        }
      } else {
        CutTarget(s, c, u);
        OnlyNewline(s, rest);
      }
    }
  }

  lemma SameBehind(a: string, b: string, c: string)
    ensures a + b == a + c <==> b == c
  {
    assert (a + b)[|a|..] == b && (a + c)[|a|..] == c;
  }

  lemma UntargetedStays(s: Snapshot, c: string)
    requires TargetOf(c) == None
    ensures Rewrite(s, c) == c
  {
  }

  /** A cut target chunk was replaced by a short line without newline; what followed it now
      follows that, in the same chunk, and is dropped by the second rewriting. */
  lemma CutTarget(s: Snapshot, c: string, u: string)
    requires IsLine(c) && '\n' !in c && '\0' !in c && TargetOf(c).Some? && Is64Bit(s)
    requires IsLine(u) && '\0' !in u
    ensures var x := Rewrite(s, c) + u; Rewritten(s, x) == x <==> u == "\n"
  {
    var t := TargetOf(c).value;
    var kb := Kilobytes(s, t);
    var short, x := Rewrite(s, c), Rewrite(s, c) + u;
    RewrittenLineShape(t, kb, false);
    RewrittenLineFits(s, t, false);
    RewrittenLineBody(t, kb, false);
    RewrittenLineBody(t, kb, true);
    hide Padded, Key, TargetOf, Rewritten, RewrittenLine;
    LineBehind(short, u);
    RewrittenOneLine(s, x);
    EndOfLine(u);
    EndOfLine(x);
    assert x[|x|-1] == u[|u|-1];
    assert short <= x;
    if |x| < LINE_SIZE {
      TargetInFront(short, x, t);
      SameBehind(short, u, if '\n' in x then "\n" else "");
      assert short + "" == short;
    } else {
      assert short <= x[..CHUNK];
      TargetInFront(short, x[..CHUNK], t);
      RewrittenIsLine(s, x[CHUNK..]);
    }
  }

  lemma TargetInFront(front: string, x: string, t: Target)
    requires TargetOf(front) == Some(t) && front <= x
    ensures TargetOf(x) == Some(t)
  {
    assert Key(t) <= x;
    KeysDiffer(t, x);
  }

  lemma OnlyNewline(s: Snapshot, rest: string)
    requires IsLine(rest) && '\0' !in rest && Is64Bit(s)
    ensures Rewritten(s, rest) == "\n" <==> rest == "\n"
  {
    hide Rewritten, TargetOf;
    RewrittenOneLine(s, rest);
    var c := if |rest| < LINE_SIZE then rest else rest[..CHUNK];
    RewriteShape(s, c);
    if |rest| >= LINE_SIZE {
      RewrittenIsLine(s, rest[CHUNK..]);
    } else if TargetOf(rest).Some? {
      TargetsAreLong(s, rest);
    }
  }

  lemma TargetsAreLong(s: Snapshot, l: string)
    requires TargetOf(l).Some?
    ensures |l| > 1 && |Rewrite(s, l)| > 1
  {
  }

  /** For a fixed snapshot, rewriting a rewritten text gives it back exactly when no target
      line is cut by the 1024-byte line buffer. */
  lemma RewriteIsIdempotentIff(s: Snapshot, text: string)
    requires '\0' !in text && Is64Bit(s)
    ensures Rewritten(s, Rewritten(s, text)) == Rewritten(s, text) <==>
            forall i :: 0 <= i < |TextLines(text)| ==> Uncut(TextLines(text)[i])
  {
    hide Rewritten, TextLines, IsLine, Uncut, KeepsLines;
    var once := Rewritten(s, text);
    var twice := Rewritten(s, once);
    RewritesLineByLine(s, text);
    PlainTextKeepsLines(text);
    RewritesLineByLine(s, once);
    PlainTextKeepsLines(once);
    var before, a, b := TextLines(text), TextLines(once), TextLines(twice);
    forall i | 0 <= i < |before|
      ensures b[i] == a[i] <==> Uncut(before[i])
    {
      LineOfText(text, i);
      LineIdempotentIff(s, before[i]);
    }
    LinesMakeText(once);
    LinesMakeText(twice);
    if forall i :: 0 <= i < |before| ==> Uncut(before[i]) {
      assert a == b;
    }
  }

  /** For example the three lines, whenever they are as short as the kernel writes them. */
  lemma ShortLinesAreIdempotent(s: Snapshot, text: string)
    requires '\0' !in text && Is64Bit(s)
    requires forall i :: 0 <= i < |TextLines(text)| ==> |TextLines(text)[i]| < LINE_SIZE
    ensures Rewritten(s, Rewritten(s, text)) == Rewritten(s, text)
  {
    RewriteIsIdempotentIff(s, text);
  }

  /** And a target line of more than 1024 bytes never is. */
  lemma LongTargetIsNotIdempotent(s: Snapshot, t: Target, tail: string)
    requires Is64Bit(s) && '\0' !in tail && '\n' !in tail && |Key(t)| + |tail| >= LINE_SIZE
    ensures Rewritten(s, Rewritten(s, Key(t) + tail)) != Rewritten(s, Key(t) + tail)
  {
    hide Key, Uncut, TargetOf, Rewritten;
    var l := Key(t) + tail;
    KeyIsPlain(t);
    LineOfBody(l, false);
    assert l + "" == l;
    LineIdempotentIff(s, l);
    LongTargetIsCut(t, l);
  }

  lemma LongTargetIsCut(t: Target, l: string)
    requires Key(t) <= l && |l| >= LINE_SIZE && '\n' !in l
    ensures !Uncut(l)
  {
    assert Key(t) <= l[..CHUNK];
    KeysDiffer(t, l[..CHUNK]);
    assert l[CHUNK..][0] == l[CHUNK];
  }

  // ----- the texts that rewriting leaves alone

  /** The line says what the snapshot says: each target chunk in it is a whole line, printed as
      the rewriter prints it. */
  predicate Settled(s: Snapshot, l: string)
    decreases |l|
  {
    if |l| < LINE_SIZE then
      match TargetOf(l)
      case None => true
      case Some(t) => l == RewrittenLine(t, Kilobytes(s, t), '\n' in l)
    else TargetOf(l[..CHUNK]) == None && Settled(s, l[CHUNK..])
  }

  lemma {:induction false} LineFixedIff(s: Snapshot, l: string)
    requires IsLine(l) && '\0' !in l && Is64Bit(s)
    ensures Rewritten(s, l) == l <==> Settled(s, l)
    decreases |l|
  {
    hide Rewritten, TargetOf, RewrittenLine, IsLine;
    RewrittenOneLine(s, l);
    if |l| >= LINE_SIZE {
      var c, rest := l[..CHUNK], l[CHUNK..];
      assert l == c + rest;
      RewrittenIsLine(s, rest);
      if TargetOf(c) == None {
        LineFixedIff(s, rest);
        SameBehind(c, Rewritten(s, rest), rest);
      } else {
        RewrittenLineFits(s, TargetOf(c).value, '\n' in c);
      }
    }
  }

  /** The fixed points of rewriting, among all texts: no NUL byte, and every line settled. So a
      rewritten text, which has no NUL byte, is given back iff all its lines are. */
  lemma RewriteFixedPoints(s: Snapshot, text: string)
    requires Is64Bit(s)
    ensures Rewritten(s, text) == text <==>
            '\0' !in text && forall i :: 0 <= i < |TextLines(text)| ==> Settled(s, TextLines(text)[i])
  {
    hide Rewritten, TextLines, IsLine, Settled, KeepsLines;
    RewritesLineByLine(s, text);
    if '\0' !in text {
      PlainTextKeepsLines(text);
      var before, after := TextLines(text), TextLines(Rewritten(s, text));
      forall i | 0 <= i < |before|
        ensures after[i] == before[i] <==> Settled(s, before[i])
      {
        LineOfText(text, i);
        LineFixedIff(s, before[i]);
      }
      LinesMakeText(text);
      LinesMakeText(Rewritten(s, text));
      if forall i :: 0 <= i < |before| ==> Settled(s, before[i]) {
        assert after == before;
      }
    }
  }

  /** The number a reader of a line finds behind a key. */
  function NumberBehind(key: string, line: string): Option<nat> {
    if key <= line then ParseNumber(TrimToken(line[|key|..]), U64_MAX) else None
  }

  /** The line gives `bytes` in kilobytes behind the key. */
  predicate Gives(line: string, key: string, bytes: nat) {
    NumberBehind(key, line).Some? && 0 <= bytes - 1024 * NumberBehind(key, line).value < 1024
  }

  /** The line is the key, the kilobytes right-aligned in 16 columns, the unit, and a newline if
      `newline`. */
  ghost predicate Prints(line: string, key: string, bytes: nat, newline: bool) {
    exists blanks: nat, kb: nat :: PrintsNumber(line, key, blanks, kb, newline) && 0 <= bytes - 1024 * kb < 1024
  }

  ghost predicate PrintsNumber(line: string, key: string, blanks: nat, kb: nat, newline: bool) {
    && line == key + (seq(blanks, _ => ' ') + Print(kb) + (if newline then " kB\n" else " kB"))
    && (if |Print(kb)| <= 16 then blanks + |Print(kb)| == 16 else blanks == 0)
  }

  lemma {:induction false} SkipPadding(k: nat, s: string)
    ensures SkipSpace(seq(k, _ => ' ') + s) == SkipSpace(s)
    decreases k
  {
    var padded := seq(k, _ => ' ') + s;
    if k == 0 {
      assert padded == s;
    } else {
      assert padded[1..] == seq(k - 1, _ => ' ') + s;
      SkipPadding(k - 1, s);
    }
  }

  /** What a number written behind a key is read back as, and how it is written. */
  lemma PaddedReadsBack(key: string, kb: nat, newline: bool)
    requires kb <= U64_MAX
    ensures var line := key + (Padded(kb) + (if newline then " kB\n" else " kB"));
            NumberBehind(key, line) == Some(kb) && exists blanks: nat :: PrintsNumber(line, key, blanks, kb, newline)
  {
    hide Print, TrimToken, ParseNumber;
    var tail := if newline then " kB\n" else " kB";
    BehindKey(key, Padded(kb) + tail);
    TrimPadded(kb, tail);
    assert Zeros(0) + Print(kb) == Print(kb);
    ParseInvertsPrint(Print(kb), U64_MAX, kb);
    var blanks: nat := if |Print(kb)| < 16 then 16 - |Print(kb)| else 0;
    assert seq(blanks, _ => ' ') + Print(kb) == Padded(kb);
    assert PrintsNumber(key + (Padded(kb) + tail), key, blanks, kb, newline);
  }

  lemma KeyLineRewritten(s: Snapshot, line: string, t: Target)
    requires Is64Bit(s) && Key(t) <= line
    ensures NumberBehind(Key(t), Rewrite(s, line)) == Some(Kilobytes(s, t))
    ensures exists blanks: nat :: PrintsNumber(Rewrite(s, line), Key(t), blanks, Kilobytes(s, t), '\n' in line)
  {
    hide Padded, NumberBehind, PrintsNumber;
    KeysDiffer(t, line);
    PaddedReadsBack(Key(t), Kilobytes(s, t), '\n' in line);
  }

  /** `after` is what the snapshot makes of a line: total memory behind MemTotal, available
      memory behind MemFree and MemAvailable, in kilobytes; a line with none of the three keys
      stays as it is. */
  ghost predicate ShowsLine(s: Snapshot, before: string, after: string) {
    && ("MemTotal:" <= before ==>
          Gives(after, "MemTotal:", s.total) && Prints(after, "MemTotal:", s.total, '\n' in before))
    && ("MemFree:" <= before ==>
          Gives(after, "MemFree:", s.available) && Prints(after, "MemFree:", s.available, '\n' in before))
    && ("MemAvailable:" <= before ==>
          Gives(after, "MemAvailable:", s.available) && Prints(after, "MemAvailable:", s.available, '\n' in before))
    && (!("MemTotal:" <= before) && !("MemFree:" <= before) && !("MemAvailable:" <= before) ==> after == before)
  }

  /** What a line becomes, in its format and as a reader finds it. */
  lemma ReportsSnapshot(s: Snapshot, line: string)
    requires Is64Bit(s)
    ensures ShowsLine(s, line, Rewrite(s, line))
  {
    hide Rewrite, NumberBehind, PrintsNumber;
    if Key(Total) <= line {
      KeyLineRewritten(s, line, Total);
    }
    if Key(Free) <= line {
      KeyLineRewritten(s, line, Free);
    }
    if Key(Available) <= line {
      KeyLineRewritten(s, line, Available);
    }
    OtherLineStays(s, line);
  }

  lemma OtherLineStays(s: Snapshot, line: string)
    ensures !("MemTotal:" <= line) && !("MemFree:" <= line) && !("MemAvailable:" <= line) ==> Rewrite(s, line) == line
  {
  }

  lemma BehindKey(key: string, rest: string)
    ensures key <= key + rest && (key + rest)[|key|..] == rest
  {
  }

  lemma TrimPadded(n: nat, tail: string)
    requires tail != "" && IsSpace(tail[0])
    ensures TrimToken(Padded(n) + tail) == Print(n)
  {
    hide Print;
    var digits := Print(n);
    TrimPrinted(n, tail);
    if |digits| < 16 {
      SkipPadding(16 - |digits|, digits + tail);
      assert Padded(n) + tail == seq(16 - |digits|, _ => ' ') + (digits + tail);
    }
  }

  /** Cross-module bound: numbers of a memory view never outgrow the 16 columns, so the
      rewritten text has the same length whatever the usage. */
  lemma ViewKeepsWidth(known: Option<Memory>, world: seq<FileSystem>, i: nat, t: Target, newline: bool)
    requires Finite(known) && i < |world| && Snapshots(known, world)[i].Some?
    ensures var s := Snapshots(known, world)[i].value;
            Is64Bit(s) && |RewrittenLine(t, Kilobytes(s, t), newline)| == |Key(t)| + 16 + (if newline then 4 else 3)
  {
    SnapshotsAreBounded(known, world);
    var s := Snapshots(known, world)[i].value;
    assert Kilobytes(s, t) < 0x20_0000_0000_0000;
    PrintLengths(Kilobytes(s, t));
  }
}
