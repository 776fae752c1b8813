/** Joining a cgroup mount point, the part of the cgroup path inside the mount, and a file
    name, component by component. */
module CgroupPaths {
  import opened Text
  import opened PathNormalizer

  function CleanRel(path: string): (rel: string)
    ensures Tokens(rel, '/') == Tokens(path, '/')
  {
    if path != "" && path[0] == '/' then CleanRel(path[1..]) else path
  }

  /** Trailing slashes are dropped, but a leading one stays. */
  function StripSlashes(root: string): string {
    if |root| > 1 && root[|root|-1] == '/' then StripSlashes(root[..|root|-1]) else root
  }

  function OrRoot(path: string): string {
    if path == "" then "/" else path
  }

  /** The part of a cgroup path below the root of a mount, if it is below it. */
  function InsideMount(mountRoot: string, relPath: string): Option<string> {
    var root, rel := StripSlashes(OrRoot(mountRoot)), OrRoot(relPath);
    if root == "/" then Some(rel)
    else if !(root <= rel) then None
    else if |rel| > |root| && rel[|root|] != '/' then None
    else Some(if |rel| == |root| then "/" else rel[|root|..])
  }

  /** One joined piece, without any limit on length. */
  function Appended(text: string, segment: string): string {
    if segment == "" then text
    else if text != "" && text[|text|-1] == '/' then text + CleanRel(segment)
    else text + "/" + CleanRel(segment)
  }

  function JoinedPath(mountPoint: string, inside: string, file: string): string {
    Appended(Appended(mountPoint, inside), file)
  }

  /** The path of a control file in a buffer of `size` bytes. */
  function CgroupPath(mountPoint: string, mountRoot: string, relPath: string, file: string, size: nat): Option<string> {
    match InsideMount(mountRoot, relPath)
    case None => None
    case Some(inside) =>
      var path := JoinedPath(mountPoint, inside, file);
      if |path| < size then Some(path) else None
  }

  // ----- components

  lemma {:induction false} StripKeepsTokens(root: string)
    ensures Tokens(StripSlashes(root), '/') == Tokens(root, '/')
    ensures root != "" ==> StripSlashes(root) != ""
    ensures StripSlashes(root) == "/" || StripSlashes(root) == "" || StripSlashes(root)[|StripSlashes(root)|-1] != '/'
    decreases |root|
  {
    hide Tokens;
    if |root| > 1 && root[|root|-1] == '/' {
      var init := root[..|root|-1];
      StripKeepsTokens(init);
      TokensConcat(init, "/", '/');
      assert init + "/" == root;
      RootHasNoTokens();
    }
  }

  /** Whatever the spelling, an accepted path is the mount root's components followed by the
      components of the part inside. */
  lemma InsideMountSplits(mountRoot: string, relPath: string)
    requires InsideMount(mountRoot, relPath).Some?
    ensures Tokens(relPath, '/') == Tokens(mountRoot, '/') + Tokens(InsideMount(mountRoot, relPath).value, '/')
  {
    hide Tokens;
    var root, rel := StripSlashes(OrRoot(mountRoot)), OrRoot(relPath);
    StripKeepsTokens(OrRoot(mountRoot));
    RootHasNoTokens();
    if root != "/" {
      TokensBelow(root, rel, '/');
      if |rel| == |root| {
        assert rel[|root|..] == "";
      }
    }
  }

  lemma RootHasNoTokens()
    ensures Tokens("/", '/') == [] && Tokens("", '/') == []
  {
    assert "/"[1..] == "";
  }

  lemma CanonicalKeepsStrip(root: string)
    requires Canonical(root)
    ensures StripSlashes(root) == root
  {
    CanonicalIsRendered(root);
    var stack := Tokens(root, '/');
    if stack != [] {
      JoinEndsInName(stack);
    }
  }

  lemma {:induction false} JoinEndsInName(stack: seq<string>)
    requires AllPlain(stack) && stack != []
    ensures |Join(stack)| > 1 && Join(stack)[|Join(stack)|-1] != '/'
    decreases |stack|
  {
    if |stack| == 1 {
      JoinOfWord(stack[0]);
      assert stack == [stack[0]];
    } else {
      JoinEndsInName(stack[1..]);
    }
  }

  /** On canonical paths the test is the component-wise prefix test: `/a/bc` is not below
      `/a/b`, although its text starts with it. */
  lemma InsideMountIffPrefix(mountRoot: string, relPath: string)
    requires Canonical(mountRoot) && Canonical(relPath)
    ensures InsideMount(mountRoot, relPath).Some? <==> Tokens(mountRoot, '/') <= Tokens(relPath, '/')
  {
    hide Tokens, Join, Fields;
    var r, t := Tokens(mountRoot, '/'), Tokens(relPath, '/');
    if InsideMount(mountRoot, relPath).Some? {
      InsideMountSplits(mountRoot, relPath);
    }
    if r <= t {
      CanonicalIsRendered(mountRoot);
      CanonicalIsRendered(relPath);
      CanonicalKeepsStrip(mountRoot);
      if r != [] {
        assert t == r + t[|r|..];
        JoinConcat(r, t[|r|..]);
        if t[|r|..] != [] {
          var below := t[|r|..];
          JoinCons(below[0], below[1..]);
          assert below == [below[0]] + below[1..];
        } else {
          JoinOfNone();
        }
      }
    }
  }

  lemma AppendedTokens(text: string, segment: string)
    ensures Tokens(Appended(text, segment), '/') == Tokens(text, '/') + Tokens(segment, '/')
  {
    hide Tokens, CleanRel;
    RootHasNoTokens();
    var rel := CleanRel(segment);
    if segment != "" {
      if text != "" && text[|text|-1] == '/' {
        TokensConcat(text, rel, '/');
      } else {
        TokensOfJoined(text, rel, '/');
      }
    }
  }

  /** The joined path names the control file in the directory reached from the mount point
      by the components inside the mount, and those, behind the mount's root, are exactly the
      components of the cgroup's path. */
  lemma CgroupPathNamesFile(mountPoint: string, mountRoot: string, relPath: string, file: string, size: nat)
    ensures var path := CgroupPath(mountPoint, mountRoot, relPath, file, size);
            path.Some? ==>
              && |path.value| < size
              && Tokens(path.value, '/') ==
                   Tokens(mountPoint, '/') + Tokens(InsideMount(mountRoot, relPath).value, '/') + Tokens(file, '/')
              && Tokens(mountRoot, '/') + Tokens(InsideMount(mountRoot, relPath).value, '/') == Tokens(relPath, '/')
  {
    if InsideMount(mountRoot, relPath).Some? {
      var inside := InsideMount(mountRoot, relPath).value;
      InsideMountSplits(mountRoot, relPath);
      AppendedTokens(mountPoint, inside);
      AppendedTokens(Appended(mountPoint, inside), file);
    }
  }

  // ----- the text of a control file's path

  /** Nothing of the first text is lost, and what follows starts a new component. */
  lemma AppendedKeepsText(text: string, segment: string)
    ensures text <= Appended(text, segment)
    ensures segment != "" && text != "" && text[|text|-1] != '/' ==> text + "/" <= Appended(text, segment)
  {
  }

  /** The result is the mount point's text, with the control file below it. */
  lemma CgroupPathKeepsPoint(mountPoint: string, mountRoot: string, relPath: string, file: string, size: nat)
    requires file != "" && file[0] != '/'
    ensures var path := CgroupPath(mountPoint, mountRoot, relPath, file, size);
            path.Some? ==>
              && mountPoint <= path.value && |path.value| > |file|
              && path.value[|path.value|-|file|-1..] == "/" + file
  {
    hide Appended, InsideMount;
    if InsideMount(mountRoot, relPath).Some? {
      var inside := InsideMount(mountRoot, relPath).value;
      AppendedKeepsText(mountPoint, inside);
      AppendedKeepsText(Appended(mountPoint, inside), file);
      AppendedEndsInFile(Appended(mountPoint, inside), file);
    }
  }

  lemma AppendedEndsInFile(dir: string, file: string)
    requires file != "" && file[0] != '/'
    ensures var path := Appended(dir, file); |path| > |file| && path[|path|-|file|-1..] == "/" + file
  {
    assert CleanRel(file) == file;
    if dir != "" && dir[|dir|-1] == '/' {
      assert dir + file == dir[..|dir|-1] + ("/" + file);
    } else {
      assert dir + "/" + file == dir + ("/" + file);
    }
  }

  /** A mount's root or mount point as the kernel prints it: the root directory, or a text that
      does not end in a slash. */
  predicate Printed(path: string) {
    path == "/" || (path != "" && path[|path|-1] != '/')
  }

  /** The part of a cgroup's path behind the mount's root: nothing, or "/" and more. */
  predicate IsBelow(below: string) {
    below == "" || (|below| > 1 && below[0] == '/' && below[1] != '/' && below[|below|-1] != '/')
  }

  /** `rel` is `root` and `below` behind it, printed as a path. */
  predicate LeadsBelow(root: string, rel: string, below: string) {
    if root == "/" then rel == (if below == "" then "/" else below) else rel == root + below
  }

  lemma InsideIsBelow(root: string, rel: string, below: string)
    requires Printed(root) && IsBelow(below) && LeadsBelow(root, rel, below)
    ensures InsideMount(root, rel) == Some(if below == "" then "/" else below)
  {
    assert StripSlashes(root) == root;
    if root != "/" {
      assert rel[|root|..] == below;
    }
  }

  /** The path of a control file, written out: the mount point, what the cgroup's path has behind
      the mount's root, and the file. */
  lemma CgroupPathText(point: string, root: string, rel: string, below: string, file: string, size: nat)
    requires Printed(root) && IsBelow(below) && LeadsBelow(root, rel, below)
    requires Printed(point) && point != "/" && file != "" && file[0] != '/'
    ensures var text := point + below + "/" + file;
            CgroupPath(point, root, rel, file, size) == if |text| < size then Some(text) else None
  {
    hide InsideMount, Appended, CleanRel;
    InsideIsBelow(root, rel, below);
    BelowPoint(point, below);
    assert (point + "/")[|point|] == '/';
    BehindDirectory(if below == "" then point + "/" else point + below, file);
    assert point + below + "/" + file == if below == "" then point + "/" + file else (point + below) + "/" + file;
  }

  lemma BelowPoint(point: string, below: string)
    requires IsBelow(below) && Printed(point) && point != "/"
    ensures Appended(point, if below == "" then "/" else below) == if below == "" then point + "/" else point + below
  {
    if below == "" {
      assert "/"[1..] == "";
    } else {
      assert CleanRel(below) == below[1..];
      assert point + "/" + below[1..] == point + below;
    }
  }

  lemma BehindDirectory(dir: string, file: string)
    requires dir != "" && file != "" && file[0] != '/'
    ensures Appended(dir, file) == if dir[|dir|-1] == '/' then dir + file else dir + "/" + file
  {
  }

  // ----- the program

  /** The loop that shrinks root_len, then the prefix and separator tests. */
  method UnderMountRoot(mountRoot: string, relPath: string) returns (inside: Option<string>)
    ensures inside == InsideMount(mountRoot, relPath)
  {
    var root := if mountRoot == "" then "/" else mountRoot;
    var rel := if relPath == "" then "/" else relPath;
    var rootLen := |root|;
    assert root[..rootLen] == root;
    while rootLen > 1 && root[rootLen-1] == '/'
      invariant 0 < rootLen <= |root|
      invariant StripSlashes(root[..rootLen]) == StripSlashes(root)
    {
      assert root[..rootLen][..rootLen-1] == root[..rootLen-1];
      rootLen := rootLen - 1;
    }
    assert StripSlashes(root) == root[..rootLen];
    if rootLen == 1 && root[0] == '/' {
      return Some(rel);
    }
    if !(root[..rootLen] <= rel) {
      return None;
    }
    if |rel| > rootLen && rel[rootLen] != '/' {
      return None;
    }
    inside := Some(if |rel| == rootLen then "/" else rel[rootLen..]);
  }

  /** snprintf of one piece behind the `used` bytes already written. */
  method AppendSegment(buf: array<char>, used: nat, segment: string) returns (ok: bool, newUsed: nat)
    requires used < buf.Length && buf[used] == '\0'
    modifies buf
    ensures ok <==> |Appended(old(buf[..used]), segment)| < buf.Length
    ensures ok ==> newUsed == |Appended(old(buf[..used]), segment)| && newUsed < buf.Length &&
                   buf[..newUsed] == Appended(old(buf[..used]), segment) && buf[newUsed] == '\0'
  {
    hide CleanRel;
    if segment == "" {
      return true, used;
    }
    var piece := if used > 0 && buf[used-1] == '/' then CleanRel(segment) else "/" + CleanRel(segment);
    newUsed := used;
    if |piece| >= buf.Length - used {
      return false, used;
    }
    CopyBytes(buf, used, piece);
    newUsed := used + |piece|;
    assert buf[..newUsed] == old(buf[..used]) + piece;
    buf[newUsed] := '\0';
    ok := true;
  }

  lemma AppendedGrows(text: string, segment: string)
    ensures |text| <= |Appended(text, segment)|
  {
  }

  /** Leaves the path, of `used` bytes, terminated in `buf`. */
  method BuildCgroupPath(buf: array<char>, mountPoint: string, mountRoot: string, relPath: string, file: string)
    returns (ok: bool, used: nat)
    modifies buf
    ensures ok <==> CgroupPath(mountPoint, mountRoot, relPath, file, buf.Length).Some?
    ensures ok ==> used < buf.Length && buf[used] == '\0' &&
                   CgroupPath(mountPoint, mountRoot, relPath, file, buf.Length) == Some(buf[..used])
  {
    hide Appended, InsideMount;
    used := 0;
    var inside := UnderMountRoot(mountRoot, relPath);
    if inside == None {
      return false, used;
    }
    AppendedGrows(mountPoint, inside.value);
    AppendedGrows(Appended(mountPoint, inside.value), file);
    if |mountPoint| >= buf.Length {
      return false, used;
    }
    CopyBytes(buf, 0, mountPoint);
    buf[|mountPoint|] := '\0';
    assert buf[..|mountPoint|] == mountPoint;
    ok, used := AppendSegment(buf, |mountPoint|, inside.value);
    if !ok {
      return;
    }
    ok, used := AppendSegment(buf, used, file);
  }
}
