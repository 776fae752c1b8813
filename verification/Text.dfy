/** Byte strings and the two ways the shim cuts them up: into the non-empty runs
    between separators (path segments, strtok_r) and into every field between
    separators (comma lists, lines). */
module Text {

  datatype Option<+T> = None | Some(value: T)

  /** One C `char` of a buffer, seen as an unsigned byte. */
  type Byte = c: char | c as int < 256 witness '\0'

  /** `out` is what stands in `all` at the positions `at`: in order, and each position once. */
  ghost predicate Selects<T>(all: seq<T>, at: seq<nat>, out: seq<T>) {
    && |at| == |out|
    && (forall i, j :: 0 <= i < j < |at| ==> at[i] < at[j])
    && forall j :: 0 <= j < |at| ==> at[j] < |all| && out[j] == all[at[j]]
  }

  function Shifted(at: seq<nat>): (r: seq<nat>)
    ensures |r| == |at| && forall j :: 0 <= j < |at| ==> r[j] == at[j] + 1
  {
    seq(|at|, j requires 0 <= j < |at| => at[j] + 1)
  }

  /** The positions in a longer list, whose first element is taken if `keep`. */
  function NextPositions(at: seq<nat>, keep: bool): (next: seq<nat>)
    ensures 0 in next <==> keep
    ensures forall i: nat :: i + 1 in next <==> i in at
  {
    var next := (if keep then [0] else []) + Shifted(at);
    assert forall j :: 0 <= j < |at| ==> Shifted(at)[j] == at[j] + 1 && Shifted(at)[j] in Shifted(at);
    next
  }

  lemma SelectsCons<T>(first: T, rest: seq<T>, at: seq<nat>, out: seq<T>, keep: bool)
    requires Selects(rest, at, out)
    ensures Selects([first] + rest, NextPositions(at, keep), (if keep then [first] else []) + out)
  {
    var all, next := [first] + rest, NextPositions(at, keep);
    var longer := (if keep then [first] else []) + out;
    var shift := if keep then 1 else 0;
    forall j | 0 <= j < |next|
      ensures next[j] < |all| && longer[j] == all[next[j]]
      ensures j >= shift ==> next[j] == at[j - shift] + 1
    {
      if j >= shift {
        assert next[j] == Shifted(at)[j - shift];
      }
    }
  }

  lemma {:induction false} PositionsGrow<T>(all: seq<T>, at: seq<nat>, out: seq<T>, j: nat)
    requires Selects(all, at, out) && j < |at|
    ensures j <= at[j]
  {
    if j > 0 {
      PositionsGrow(all, at, out, j - 1);
    }
  }

  lemma {:induction false} PositionsLeaveRoom<T>(all: seq<T>, at: seq<nat>, out: seq<T>, j: nat)
    requires Selects(all, at, out) && j < |at|
    ensures at[j] + |at| <= |all| + j
    decreases |at| - j
  {
    if j + 1 < |at| {
      PositionsLeaveRoom(all, at, out, j + 1);
    }
  }

  lemma {:induction false} DensePositions<T>(all: seq<T>, at: seq<nat>, out: seq<T>, j: nat)
    requires Selects(all, at, out) && forall i: nat :: i <= j ==> i in at
    ensures j < |at| && at[j] == j
  {
    assert j in at;
    var k :| 0 <= k < |at| && at[k] == j;
    if j > 0 {
      DensePositions(all, at, out, j - 1);
    }
    PositionsGrow(all, at, out, k);
  }

  lemma FullPosition<T>(all: seq<T>, at: seq<nat>, out: seq<T>, i: nat)
    requires Selects(all, at, out) && out == all && i < |all|
    ensures i in at
  {
    PositionsGrow(all, at, out, i);
    PositionsLeaveRoom(all, at, out, i);
    assert at[i] == i;
  }

  lemma AllSelected<T>(all: seq<T>, at: seq<nat>, out: seq<T>)
    requires Selects(all, at, out) && forall i: nat :: i < |all| ==> i in at
    ensures out == all
  {
    if all != [] {
      DensePositions(all, at, out, |all| - 1);
    }
    if at != [] {
      PositionsLeaveRoom(all, at, out, 0);
    }
    forall i | 0 <= i < |all|
      ensures i < |out| && out[i] == all[i]
    {
      DensePositions(all, at, out, i);
    }
  }

  /** Everything is selected iff every position is. */
  lemma AllSelectedIff<T>(all: seq<T>, at: seq<nat>, out: seq<T>)
    requires Selects(all, at, out)
    ensures out == all <==> forall i: nat :: i < |all| ==> i in at
  {
    hide Selects;
    if forall i: nat :: i < |all| ==> i in at {
      AllSelected(all, at, out);
    }
    if out == all {
      forall i: nat | i < |all|
        ensures i in at
      {
        FullPosition(all, at, out, i);
      }
    }
  }

  /** Index of the first `c` in `s`, or the length of `s`. */
  function Find(s: string, c: char): (k: nat)
    ensures k <= |s| && c !in s[..k] && (k < |s| ==> s[k] == c)
  {
    if s == [] || s[0] == c then 0 else 1 + Find(s[1..], c)
  }

  lemma FindUnique(s: string, c: char, k: nat)
    requires k <= |s| && c !in s[..k] && (k < |s| ==> s[k] == c)
    ensures Find(s, c) == k
  {
  }

  /** The maximal runs of `s` that do not contain `sep`. */
  function Tokens(s: string, sep: char): (tokens: seq<string>)
    ensures forall i :: 0 <= i < |tokens| ==> tokens[i] != "" && sep !in tokens[i]
    decreases |s|
  {
    if s == [] then []
    else if s[0] == sep then Tokens(s[1..], sep)
    else
      var k := Find(s, sep);
      [s[..k]] + Tokens(s[k..], sep)
  }

  /** Every field of `s` between separators, empty ones included. */
  function Fields(s: string, sep: char): (fields: seq<string>)
    ensures fields != []
    ensures forall i :: 0 <= i < |fields| ==> sep !in fields[i]
    decreases |s|
  {
    var k := Find(s, sep);
    if k == |s| then [s] else [s[..k]] + Fields(s[k+1..], sep)
  }

  lemma FieldsOfWord(w: string, sep: char)
    requires sep !in w
    ensures Fields(w, sep) == [w]
  {
    FindUnique(w, sep, |w|);
  }

  lemma FieldsCons(w: string, sep: char, rest: string)
    requires sep !in w
    ensures Fields(w + [sep] + rest, sep) == [w] + Fields(rest, sep)
  {
    var s := w + [sep] + rest;
    assert s[..|w|] == w && s[|w|+1..] == rest;
    FindUnique(s, sep, |w|);
  }

  lemma NoTokens(sep: char)
    ensures Tokens("", sep) == []
  {
  }

  lemma {:induction false} TokensOfWord(w: string, sep: char)
    requires w != "" && sep !in w
    ensures Tokens(w, sep) == [w]
  {
    FindUnique(w, sep, |w|);
    assert w[..|w|] == w && w[|w|..] == [];
  }

  /** A cut at a separator, or at either end, does not split a token. */
  lemma {:induction false} TokensConcat(a: string, b: string, sep: char)
    requires a == [] || b == [] || b[0] == sep || a[|a|-1] == sep
    ensures Tokens(a + b, sep) == Tokens(a, sep) + Tokens(b, sep)
    decreases |a|
  {
    if a == [] {
      assert a + b == b;
    } else if b == [] {
      assert a + b == a;
    } else if a[0] == sep {
      assert (a + b)[1..] == a[1..] + b;
      TokensConcat(a[1..], b, sep);
    } else {
      var k := Find(a, sep);
      assert (a + b)[..k] == a[..k];
      FindUnique(a + b, sep, k);
      assert (a + b)[k..] == a[k..] + b;
      TokensConcat(a[k..], b, sep);
      assert [a[..k]] + Tokens(a[k..] + b, sep) == ([a[..k]] + Tokens(a[k..], sep)) + Tokens(b, sep);
    }
  }

  lemma TokensBelow(base: string, q: string, sep: char)
    requires base <= q && (q == base || q[|base|] == sep)
    ensures Tokens(q, sep) == Tokens(base, sep) + Tokens(q[|base|..], sep)
  {
    TokensConcat(base, q[|base|..], sep);
    assert base + q[|base|..] == q;
  }

  lemma TokensOfJoined(dir: string, path: string, sep: char)
    ensures Tokens(dir + [sep] + path, sep) == Tokens(dir, sep) + Tokens(path, sep)
  {
    var below := [sep] + path;
    TokensConcat(dir, below, sep);
    assert dir + below == dir + [sep] + path;
    assert below[1..] == path;
  }

  /** `"/" + segment` for each segment, one after the other. */
  function Join(segments: seq<string>): string {
    if segments == [] then "" else "/" + segments[0] + Join(segments[1..])
  }

  lemma JoinCons(head: string, rest: seq<string>)
    ensures Join([head] + rest) == "/" + head + Join(rest)
  {
    assert ([head] + rest)[1..] == rest;
  }

  lemma JoinOfNone()
    ensures Join([]) == ""
  {
  }

  lemma JoinOfWord(word: string)
    ensures Join([word]) == "/" + word
  {
  }

  lemma {:induction false} JoinConcat(a: seq<string>, b: seq<string>)
    ensures Join(a + b) == Join(a) + Join(b)
    decreases |a|
  {
    if a == [] {
      assert a + b == b;
    } else {
      assert (a + b)[1..] == a[1..] + b;
      JoinConcat(a[1..], b);
    }
  }

  lemma {:induction false} TokensOfJoin(segments: seq<string>)
    requires forall i :: 0 <= i < |segments| ==> segments[i] != "" && '/' !in segments[i]
    ensures Tokens(Join(segments), '/') == segments
    decreases |segments|
  {
    if segments != [] {
      var head := "/" + segments[0];
      var rest := Join(segments[1..]);
      TokensConcat(head, rest, '/');
      assert head[1..] == segments[0];
      TokensOfWord(segments[0], '/');
      TokensOfJoin(segments[1..]);
    }
  }

  /** memcpy of a whole string to `dst[at..]`. */
  method CopyBytes(dst: array<char>, at: nat, src: string)
    requires at + |src| <= dst.Length
    modifies dst
    ensures dst[..] == old(dst[..at]) + src + old(dst[at + |src|..])
  {
    forall k | 0 <= k < |src| {
      dst[at + k] := src[k];
    }
  }
}
