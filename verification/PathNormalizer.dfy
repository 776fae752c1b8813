/** The lexical path normaliser of the GPU view filter: a stack of at most 64 segments,
    rendered into a caller's buffer. It is the lexical part of pathname resolution
    (section 4.13 of POSIX.1-2017, Base Definitions), without symbolic links. */
module PathNormalizer {
  import opened Text

  /** Slots of the segment array, in the normaliser and in the relative resolver. */
  const MAX_SEGMENTS := 64

  predicate Plain(s: string) {
    s != "" && '/' !in s && s != "." && s != ".."
  }

  predicate AllPlain(stack: seq<string>) {
    forall i :: 0 <= i < |stack| ==> Plain(stack[i])
  }

  predicate AllSegments(segs: seq<string>) {
    forall i :: 0 <= i < |segs| ==> segs[i] != "" && '/' !in segs[i]
  }

  /** One segment applied to the directory reached so far; `..` at the root stays there. */
  function Apply(stack: seq<string>, seg: string): seq<string> {
    if seg == "." then stack
    else if seg == ".." then (if stack == [] then [] else stack[..|stack|-1])
    else stack + [seg]
  }

  /** The unbounded meaning of a list of segments, from a given directory. */
  function Walk(stack: seq<string>, segs: seq<string>): seq<string>
    decreases |segs|
  {
    if segs == [] then stack else Walk(Apply(stack, segs[0]), segs[1..])
  }

  /** The same walk with 64 slots: no result as soon as a 65th segment is pushed. */
  function BoundedWalk(stack: seq<string>, segs: seq<string>): Option<seq<string>>
    decreases |segs|
  {
    if segs == [] then Some(stack)
    else if segs[0] != "." && segs[0] != ".." && |stack| >= MAX_SEGMENTS then None
    else BoundedWalk(Apply(stack, segs[0]), segs[1..])
  }

  function Render(stack: seq<string>): string {
    if stack == [] then "/" else Join(stack)
  }

  /** What normalising `path` into a buffer of `size` bytes (terminator included) yields. */
  function Normalize(path: string, size: nat): Option<string> {
    if size < 2 || path == "" || path[0] != '/' then None
    else
      match BoundedWalk([], Tokens(path, '/'))
      case None => None
      case Some(stack) => if |Render(stack)| < size then Some(Render(stack)) else None
  }

  /** An absolute path without empty, `.` or `..` segments and without a trailing slash. */
  predicate Canonical(q: string) {
    q == "/" ||
    (q != "" && q[0] == '/' && AllPlain(Fields(q[1..], '/')))
  }

  /** The live depth exceeds the 64 slots after some prefix of the segments. */
  ghost predicate DepthOverflows(stack: seq<string>, segs: seq<string>) {
    exists k | 0 <= k <= |segs| :: |Walk(stack, segs[..k])| > 64
  }

  // ----- the walk

  lemma {:induction false} WalkConcat(stack: seq<string>, a: seq<string>, b: seq<string>)
    ensures Walk(stack, a + b) == Walk(Walk(stack, a), b)
    decreases |a|
  {
    if a == [] {
      assert a + b == b;
    } else {
      assert (a + b)[1..] == a[1..] + b;
      WalkConcat(Apply(stack, a[0]), a[1..], b);
    }
  }

  lemma {:induction false} WalkKeepsPlain(stack: seq<string>, segs: seq<string>)
    requires AllPlain(stack) && AllSegments(segs)
    ensures AllPlain(Walk(stack, segs))
    decreases |segs|
  {
    if segs != [] {
      WalkKeepsPlain(Apply(stack, segs[0]), segs[1..]);
    }
  }

  /** Plain segments are pushed one after the other. */
  lemma {:induction false} WalkOfPlain(stack: seq<string>, segs: seq<string>)
    requires AllPlain(segs)
    ensures Walk(stack, segs) == stack + segs
    ensures BoundedWalk(stack, segs) ==
            if |stack| + |segs| > MAX_SEGMENTS && segs != [] then None else Some(stack + segs)
    decreases |segs|
  {
    if segs != [] {
      WalkOfPlain(stack + [segs[0]], segs[1..]);
      assert stack + [segs[0]] + segs[1..] == stack + segs;
    }
  }

  /** The 64 slots matter exactly when the live depth passes 64 somewhere on the walk. */
  lemma {:induction false} BoundedWalkExact(stack: seq<string>, segs: seq<string>)
    requires |stack| <= MAX_SEGMENTS
    ensures BoundedWalk(stack, segs) == None <==> DepthOverflows(stack, segs)
    ensures BoundedWalk(stack, segs) != None ==> BoundedWalk(stack, segs) == Some(Walk(stack, segs))
    decreases |segs|
  {
    assert Walk(stack, segs[..0]) == stack;
    if segs != [] {
      var next := Apply(stack, segs[0]);
      if |next| > MAX_SEGMENTS {
        assert Walk(stack, segs[..1]) == next;
      } else {
        BoundedWalkExact(next, segs[1..]);
        forall k | 0 <= k <= |segs| - 1
          ensures Walk(stack, segs[..k+1]) == Walk(next, segs[1..][..k])
        {
          assert segs[..k+1][1..] == segs[1..][..k];
        }
        if k :| 0 <= k <= |segs| && |Walk(stack, segs[..k])| > MAX_SEGMENTS {
          assert k > 0;
          assert |Walk(next, segs[1..][..k-1])| > MAX_SEGMENTS;
        }
        if k :| 0 <= k <= |segs| - 1 && |Walk(next, segs[1..][..k])| > MAX_SEGMENTS {
          assert |Walk(stack, segs[..k+1])| > MAX_SEGMENTS;
        }
      }
    }
  }

  // ----- a second reading of the same path, from its end

  /** Reads the segments right to left: a name survives iff no `..` to its right still
      has to cancel a name. */
  function Survivors(segs: seq<string>, pending: nat): seq<string>
    decreases |segs|
  {
    if segs == [] then []
    else
      var last, init := segs[|segs|-1], segs[..|segs|-1];
      if last == "." then Survivors(init, pending)
      else if last == ".." then Survivors(init, pending + 1)
      else if pending > 0 then Survivors(init, pending - 1)
      else Survivors(init, 0) + [last]
  }

  /** A directory without its last `pending` names. */
  function Cut(w: seq<string>, pending: nat): seq<string> {
    if pending >= |w| then [] else w[..|w|-pending]
  }

  lemma NothingToCut(pending: nat)
    ensures Cut(Walk([], []), pending) == []
  {
  }

  lemma CutOfApplied(w: seq<string>, seg: string, pending: nat)
    ensures Cut(Apply(w, seg), pending) ==
            if seg == "." then Cut(w, pending)
            else if seg == ".." then Cut(w, pending + 1)
            else if pending > 0 then Cut(w, pending - 1)
            else Cut(w, 0) + [seg]
  {
  }

  lemma WalkSnoc(init: seq<string>, last: string)
    ensures Walk([], init + [last]) == Apply(Walk([], init), last)
  {
    WalkConcat([], init, [last]);
    assert Walk(Walk([], init), [last]) == Walk(Apply(Walk([], init), last), []);
  }

  lemma {:induction false} WalkCancelsFromTheRight(segs: seq<string>, pending: nat)
    ensures Survivors(segs, pending) == Cut(Walk([], segs), pending)
    decreases |segs|
  {
    hide Walk, Apply, Cut;
    if segs == [] {
      NothingToCut(pending);
    } else {
      var last, init := segs[|segs|-1], segs[..|segs|-1];
      WalkSnoc(init, last);
      assert init + [last] == segs;
      CutOfApplied(Walk([], init), last, pending);
      WalkCancelsFromTheRight(init,
        if last == "." then pending else if last == ".." then pending + 1
        else if pending > 0 then pending - 1 else 0);
    }
  }

  /** The stack machine and the right-to-left reading give the same directory. */
  lemma WalkIsSurvivors(segs: seq<string>)
    ensures Walk([], segs) == Survivors(segs, 0)
  {
    WalkCancelsFromTheRight(segs, 0);
    assert Cut(Walk([], segs), 0) == Walk([], segs);
  }

  // ----- rendering

  lemma {:induction false} FieldsOfJoin(stack: seq<string>)
    requires AllPlain(stack) && stack != []
    ensures Join(stack) != "" && Join(stack)[0] == '/' && Fields(Join(stack)[1..], '/') == stack
    decreases |stack|
  {
    hide Join, Fields;
    var head, rest := stack[0], stack[1..];
    assert stack == [head] + rest;
    JoinCons(head, rest);
    if rest == [] {
      JoinOfNone();
      assert Join(stack)[1..] == head;
      FieldsOfWord(head, '/');
    } else {
      FieldsOfJoin(rest);
      var below := Join(rest)[1..];
      assert Join(stack)[1..] == head + ['/'] + below;
      FieldsCons(head, '/', below);
    }
  }

  lemma {:induction false} JoinOfFields(s: string)
    ensures Join(Fields(s, '/')) == "/" + s
    decreases |s|
  {
    hide Join, Fields, Find;
    var k := Find(s, '/');
    if k < |s| {
      var head, below := s[..k], s[k+1..];
      assert s == head + ['/'] + below;
      FieldsCons(head, '/', below);
      JoinOfFields(below);
      JoinCons(head, Fields(below, '/'));
    } else {
      assert s[..k] == s;
      FieldsOfWord(s, '/');
      JoinOfWord(s);
    }
  }

  lemma RenderedIsCanonical(stack: seq<string>)
    requires AllPlain(stack)
    ensures Canonical(Render(stack)) && Tokens(Render(stack), '/') == stack
  {
    if stack != [] {
      FieldsOfJoin(stack);
      TokensOfJoin(stack);
    }
  }

  lemma CanonicalIsRendered(q: string)
    requires Canonical(q)
    ensures AllPlain(Tokens(q, '/')) && Render(Tokens(q, '/')) == q
  {
    if q != "/" {
      var fields := Fields(q[1..], '/');
      JoinOfFields(q[1..]);
      assert "/" + q[1..] == q;
      TokensOfJoin(fields);
    }
  }

  // ----- the main results

  /** Success gives the walk's directory, rendered canonically within the buffer. */
  lemma NormalizeResult(path: string, size: nat, q: string)
    requires Normalize(path, size) == Some(q)
    ensures Canonical(q) && |q| < size
    ensures Tokens(q, '/') == Survivors(Tokens(path, '/'), 0)
    ensures q == Render(Survivors(Tokens(path, '/'), 0))
    ensures |Tokens(q, '/')| <= MAX_SEGMENTS
  {
    var segs := Tokens(path, '/');
    BoundedWalkExact([], segs);
    WalkKeepsPlain([], segs);
    RenderedIsCanonical(Walk([], segs));
    WalkIsSurvivors(segs);
    assert segs[..|segs|] == segs;
  }

  /** The exact failures: a relative or empty path, a buffer below two bytes, a live depth
      above 64, or a rendering that does not leave room for its terminator. */
  lemma NormalizeFailsIff(path: string, size: nat)
    ensures Normalize(path, size) == None <==>
            || size < 2
            || path == ""
            || path[0] != '/'
            || DepthOverflows([], Tokens(path, '/'))
            || |Render(Survivors(Tokens(path, '/'), 0))| >= size
  {
    BoundedWalkExact([], Tokens(path, '/'));
    WalkIsSurvivors(Tokens(path, '/'));
  }

  /** The fixed points of normalisation are exactly the canonical paths that fit. */
  lemma NormalizeFixedPoints(q: string, size: nat)
    ensures Normalize(q, size) == Some(q) <==>
            Canonical(q) && |q| < size && |Tokens(q, '/')| <= 64
  {
    if Normalize(q, size) == Some(q) {
      NormalizeResult(q, size, q);
    }
    if Canonical(q) && |q| < size {
      CanonicalIsRendered(q);
      WalkOfPlain([], Tokens(q, '/'));
      assert [] + Tokens(q, '/') == Tokens(q, '/');
    }
  }

  lemma NormalizeIdempotent(path: string, size: nat, q: string)
    requires Normalize(path, size) == Some(q)
    ensures Normalize(q, size) == Some(q)
  {
    NormalizeResult(path, size, q);
    NormalizeFixedPoints(q, size);
  }

  // ----- C strings

  /** No byte of `s` is the terminator. */
  predicate CString(s: string) {
    forall i :: 0 <= i < |s| ==> s[i] != '\0'
  }

  predicate AllCStrings(ss: seq<string>) {
    forall i :: 0 <= i < |ss| ==> CString(ss[i])
  }

  lemma {:induction false} TokensAreCStrings(s: string)
    requires CString(s)
    ensures AllCStrings(Tokens(s, '/'))
    decreases |s|
  {
    if s != "" {
      TokensAreCStrings(if s[0] == '/' then s[1..] else s[Find(s, '/')..]);
    }
  }

  lemma {:induction false} WalkKeepsCStrings(stack: seq<string>, segs: seq<string>)
    requires AllCStrings(stack) && AllCStrings(segs)
    ensures AllCStrings(Walk(stack, segs))
    decreases |segs|
  {
    if segs != [] {
      WalkKeepsCStrings(Apply(stack, segs[0]), segs[1..]);
    }
  }

  lemma {:induction false} JoinIsCString(stack: seq<string>)
    requires AllCStrings(stack)
    ensures CString(Join(stack))
    decreases |stack|
  {
    if stack != [] {
      JoinIsCString(stack[1..]);
    }
  }

  lemma NormalizeIsCString(path: string, size: nat)
    requires CString(path) && Normalize(path, size).Some?
    ensures CString(Normalize(path, size).value)
  {
    BoundedWalkExact([], Tokens(path, '/'));
    TokensAreCStrings(path);
    WalkKeepsCStrings([], Tokens(path, '/'));
    JoinIsCString(Walk([], Tokens(path, '/')));
  }

  // ----- the program

  method SkipSlashes(path: string, start: nat) returns (offset: nat)
    requires start <= |path|
    ensures start <= offset <= |path|
    ensures offset < |path| ==> path[offset] != '/'
    ensures Tokens(path[offset..], '/') == Tokens(path[start..], '/')
  {
    offset := start;
    while offset < |path| && path[offset] == '/'
      invariant start <= offset <= |path|
      invariant Tokens(path[offset..], '/') == Tokens(path[start..], '/')
    {
      assert path[offset..][1..] == path[offset+1..];
      offset := offset + 1;
    }
  }

  method SegmentLength(path: string, offset: nat) returns (len: nat)
    requires offset < |path| && path[offset] != '/'
    ensures len == Find(path[offset..], '/') && len > 0
    ensures Tokens(path[offset..], '/') ==
            [path[offset..offset+len]] + Tokens(path[offset+len..], '/')
  {
    len := 0;
    while offset + len < |path| && path[offset + len] != '/'
      invariant offset + len <= |path|
      invariant '/' !in path[offset..][..len]
    {
      assert path[offset..][..len+1] == path[offset..][..len] + [path[offset + len]];
      len := len + 1;
    }
    FindUnique(path[offset..], '/', len);
    assert path[offset..][..len] == path[offset..offset+len];
    assert path[offset..][len..] == path[offset+len..];
  }

  /** The copy-out loop: each segment behind a slash, then the terminator. */
  method RenderSegments(segments: array<string>, count: nat, out: array<char>)
    returns (ok: bool, used: nat)
    requires count <= segments.Length && 0 < out.Length
    modifies out
    ensures ok <==> |Join(segments[..count])| < out.Length
    ensures ok ==> used == |Join(segments[..count])| && out[..used] == Join(segments[..count]) && out[used] == '\0'
  {
    used := 0;
    var i := 0;
    while i < count
      invariant i <= count && used == |Join(segments[..i])| < out.Length
      invariant out[..used] == Join(segments[..i])
    {
      var segment := segments[i];
      ghost var done, rest := segments[..i], segments[i+1..count];
      assert segments[..i+1] == done + [segment];
      JoinConcat(done, [segment]);
      if used + 1 + |segment| >= out.Length {
        assert segments[..count] == segments[..i+1] + rest;
        JoinConcat(segments[..i+1], rest);
        return false, used;
      }
      out[used] := '/';
      used := used + 1;
      CopyBytes(out, used, segment);
      used := used + |segment|;
      i := i + 1;
    }
    out[used] := '\0';
    ok := true;
  }

  lemma BoundedWalkStep(stack: seq<string>, seg: string, tail: seq<string>)
    ensures BoundedWalk(stack, [seg] + tail) ==
            if seg != "." && seg != ".." && |stack| >= MAX_SEGMENTS then None
            else BoundedWalk(Apply(stack, seg), tail)
  {
    assert ([seg] + tail)[1..] == tail;
  }

  /** One turn of the scanning loop on the first `count` slots: `.` is skipped, `..` pops
      unless at the root, a name is pushed if a slot is left. */
  method ApplySegment(segments: array<string>, count: nat, segment: string) returns (ok: bool, newCount: nat)
    requires segments.Length == MAX_SEGMENTS && count <= MAX_SEGMENTS
    modifies segments
    ensures ok <==> segment == "." || segment == ".." || count < MAX_SEGMENTS
    ensures newCount <= MAX_SEGMENTS
    ensures ok ==> segments[..newCount] == Apply(old(segments[..count]), segment)
  {
    ok, newCount := true, count;
    if segment == "." {
    } else if segment == ".." {
      if count > 0 {
        newCount := count - 1;
        assert segments[..newCount] == segments[..count][..count-1];
      }
    } else if count >= MAX_SEGMENTS {
      ok := false;
    } else {
      segments[count] := segment;
      newCount := count + 1;
      assert segments[..newCount] == old(segments[..count]) + [segment];
    }
  }

  /** The scanning loop, over the slots of the segment array. */
  method ScanSegments(path: string, segments: array<string>) returns (ok: bool, count: nat)
    requires segments.Length == MAX_SEGMENTS
    modifies segments
    ensures count <= MAX_SEGMENTS
    ensures BoundedWalk([], Tokens(path, '/')) == if ok then Some(segments[..count]) else None
  {
    hide Tokens, Find, Apply;
    NoTokens('/');
    var offset := 0;
    count := 0;
    ok := true;
    ghost var goal, rest := BoundedWalk([], Tokens(path, '/')), Tokens(path, '/');
    assert path[0..] == path && segments[..0] == [];
    while offset < |path|
      invariant offset <= |path| && count <= MAX_SEGMENTS
      invariant rest == Tokens(path[offset..], '/')
      invariant goal == BoundedWalk(segments[..count], rest)
    {
      offset := SkipSlashes(path, offset);
      if offset == |path| {
        break;
      }
      var len := SegmentLength(path, offset);
      var segment := path[offset..offset+len];
      offset := offset + len;
      rest := Tokens(path[offset..], '/');
      BoundedWalkStep(segments[..count], segment, rest);
      ok, count := ApplySegment(segments, count, segment);
      if !ok {
        return;
      }
    }
    assert path[offset..] == "";
  }

  method NormalizePath(path: string, out: array<char>) returns (ok: bool)
    modifies out
    ensures ok <==> Normalize(path, out.Length).Some?
    ensures ok ==> var q := Normalize(path, out.Length).value;
                   |q| < out.Length && out[..|q|] == q && out[|q|] == '\0'
  {
    if out.Length < 2 || path == "" || path[0] != '/' {
      return false;
    }
    var segments := new string[MAX_SEGMENTS];
    var scanned, count := ScanSegments(path, segments);
    if !scanned {
      return false;
    }
    if count == 0 {
      out[0], out[1] := '/', '\0';
      return true;
    }
    var used;
    ok, used := RenderSegments(segments, count, out);
  }

  /** The string that starts a terminated buffer (strlen, then its bytes). */
  method ReadString(buffer: array<char>, ghost expected: string) returns (s: string)
    requires CString(expected) && |expected| < buffer.Length
    requires buffer[..|expected|] == expected && buffer[|expected|] == '\0'
    ensures s == expected
  {
    var len := 0;
    while buffer[len] != '\0'
      invariant len <= |expected|
      decreases |expected| - len
    {
      assert buffer[..|expected|][len] == expected[len];
      len := len + 1;
    }
    s := buffer[..len];
  }
}
