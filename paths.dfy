/** Identifier paths: how `split_ident` turns `a.b[c]` into `["a", "b", "c"]`
    (src/introspection.rs:93-98), and how segments are joined back together
    (`itertools::join`, used with "." at line 87 and with "" at line 32). */
module Paths {

  /** The characters `split_ident` splits on. */
  predicate IsSeparator(c: char) {
    c == '.' || c == '['
  }

  /** Number of separator characters in `s`. */
  function Separators(s: string): nat {
    if s == [] then 0
    else (if IsSeparator(s[0]) then 1 else 0) + Separators(s[1..])
  }

  /** A segment as `split_ident` produces it: no separator inside, and no
      trailing `]`. */
  predicate IsSegment(seg: string) {
    && (forall i :: 0 <= i < |seg| ==> !IsSeparator(seg[i]))
    && (seg == [] || seg[|seg| - 1] != ']')
  }

  /** A path as the alias table stores it and as expansion returns it:
      non-empty, made of segments. */
  predicate IsPath(p: seq<string>) {
    |p| > 0 && forall k :: 0 <= k < |p| ==> IsSegment(p[k])
  }

  /** `str::split(&['.', '['])`: the pieces between separators, empty pieces
      included; the empty string gives one empty piece. */
  function SplitRaw(s: string): (r: seq<string>)
    ensures |r| == Separators(s) + 1
    ensures forall k, i :: 0 <= k < |r| && 0 <= i < |r[k]| ==> !IsSeparator(r[k][i])
  {
    if s == [] then [""]
    else
      var rest := SplitRaw(s[1..]);
      if IsSeparator(s[0]) then [""] + rest
      else [[s[0]] + rest[0]] + rest[1..]
  }

  /** `str::trim_end_matches(']')`: removes every trailing `]`, not just one. */
  function TrimEndBrackets(s: string): (r: string)
    ensures |r| <= |s| && r == s[..|r|]
    ensures r == [] || r[|r| - 1] != ']'
    ensures forall i :: |r| <= i < |s| ==> s[i] == ']'
  {
    if s != [] && s[|s| - 1] == ']' then TrimEndBrackets(s[..|s| - 1]) else s
  }

  /** `split_ident`: split on `.` and `[`, then trim trailing `]` from each piece. */
  function SplitIdent(s: string): (r: seq<string>)
    ensures |r| == Separators(s) + 1
    ensures IsPath(r)
  {
    var raw := SplitRaw(s);
    seq(|raw|, k requires 0 <= k < |raw| => TrimEndBrackets(raw[k]))
  }

  /** `itertools::join(sep)`: no separator before the first part; "" for no parts. */
  function Join(sep: string, parts: seq<string>): string {
    if parts == [] then ""
    else if |parts| == 1 then parts[0]
    else parts[0] + sep + Join(sep, parts[1..])
  }

  // ---------------------------------------------------------------------------
  // Properties

  /** A segment is its own trim: `split_ident` leaves it as it is. */
  lemma TrimSegment(seg: string)
    requires IsSegment(seg)
    ensures TrimEndBrackets(seg) == seg
  {
  }

  /** Splitting a separator-free prefix followed by more text keeps the prefix
      glued to the first piece of the rest. */
  lemma {:induction false} SplitRawGlue(seg: string, tail: string)
    requires forall i :: 0 <= i < |seg| ==> !IsSeparator(seg[i])
    ensures SplitRaw(seg + tail) == [seg + SplitRaw(tail)[0]] + SplitRaw(tail)[1..]
  {
    if seg != [] {
      var rest := seg[1..];
      assert (seg + tail)[1..] == rest + tail;
      SplitRawGlue(rest, tail);
      assert [seg[0]] + (rest + SplitRaw(tail)[0]) == seg + SplitRaw(tail)[0];
    } else {
      assert seg + tail == tail;
      assert seg + SplitRaw(tail)[0] == SplitRaw(tail)[0];
      assert SplitRaw(tail) == [SplitRaw(tail)[0]] + SplitRaw(tail)[1..];
    }
  }

  /** Splitting the dot-join of segments gives the segments back: the path
      notation is an exact encoding of segment sequences. */
  lemma {:induction false} SplitJoin(parts: seq<string>)
    requires IsPath(parts)
    ensures SplitIdent(Join(".", parts)) == parts
  {
    SplitRawJoin(parts);
    var raw := SplitRaw(Join(".", parts));
    forall k | 0 <= k < |parts| ensures TrimEndBrackets(raw[k]) == parts[k] {
      TrimSegment(parts[k]);
    }
  }

  lemma {:induction false} SplitRawJoin(parts: seq<string>)
    requires IsPath(parts)
    ensures SplitRaw(Join(".", parts)) == parts
  {
    if |parts| == 1 {
      SplitRawGlue(parts[0], "");
      assert parts[0] + "" == parts[0];
    } else {
      var tail := Join(".", parts[1..]);
      var after := "." + tail;
      assert SplitRaw(tail) == parts[1..] by {
        SplitRawJoin(parts[1..]);
      }
      assert SplitRaw(after) == [""] + parts[1..] by {
        assert after[0] == '.' && after[1..] == tail;
      }
      assert Join(".", parts) == parts[0] + after by {
        assert parts[0] + "." + tail == parts[0] + ("." + tail);
      }
      SplitRawGlue(parts[0], after);
      assert parts[0] + "" == parts[0];
      assert parts == [parts[0]] + parts[1..];
    }
  }

  /** Joining the split of a dotted path (no brackets at all) gives the
      original text back. */
  lemma {:induction false} JoinSplit(s: string)
    requires forall i :: 0 <= i < |s| ==> s[i] != '[' && s[i] != ']'
    ensures Join(".", SplitIdent(s)) == s
  {
    JoinSplitRaw(s);
    var raw := SplitRaw(s);
    forall k | 0 <= k < |raw| ensures TrimEndBrackets(raw[k]) == raw[k] {
      JoinSplitFree(s, raw, k);
    }
    assert SplitIdent(s) == raw;
  }

  lemma JoinSplitFree(s: string, raw: seq<string>, k: int)
    requires forall i :: 0 <= i < |s| ==> s[i] != '[' && s[i] != ']'
    requires raw == SplitRaw(s) && 0 <= k < |raw|
    ensures TrimEndBrackets(raw[k]) == raw[k]
  {
    NoBracketPieces(s);
  }

  lemma {:induction false} NoBracketPieces(s: string)
    requires forall i :: 0 <= i < |s| ==> s[i] != ']'
    ensures forall k, i :: 0 <= k < |SplitRaw(s)| && 0 <= i < |SplitRaw(s)[k]| ==> SplitRaw(s)[k][i] != ']'
  {
    if s != [] {
      NoBracketPieces(s[1..]);
    }
  }

  lemma {:induction false} JoinSplitRaw(s: string)
    requires forall i :: 0 <= i < |s| ==> s[i] != '['
    ensures Join(".", SplitRaw(s)) == s
  {
    if s != [] {
      var rest := SplitRaw(s[1..]);
      JoinSplitRaw(s[1..]);
      if IsSeparator(s[0]) {
        assert s[0] == '.';
        assert Join(".", [""] + rest) == "" + "." + Join(".", rest);
        assert s == [s[0]] + s[1..];
      } else {
        JoinConsChar(s[0], rest);
        assert s == [s[0]] + s[1..];
      }
    }
  }

  lemma {:induction false} JoinConsChar(c: char, rest: seq<string>)
    requires |rest| > 0
    ensures Join(".", [[c] + rest[0]] + rest[1..]) == [c] + Join(".", rest)
  {
    var head := [c] + rest[0];
    var parts := [head] + rest[1..];
    assert parts[0] == head && parts[1..] == rest[1..];
    if |rest| > 1 {
      var j := Join(".", rest[1..]);
      assert Join(".", parts) == head + "." + j;
      assert Join(".", rest) == rest[0] + "." + j;
      assert head + "." + j == [c] + (rest[0] + "." + j);
    } else {
      assert Join(".", parts) == head;
      assert Join(".", rest) == rest[0];
    }
  }

  // ---------------------------------------------------------------------------
  // What `str::split` returns, and the bracket notation

  /** The separator characters of `s`, in order. */
  function SepChars(s: string): (r: seq<char>)
    ensures |r| == Separators(s)
  {
    if s == [] then []
    else (if IsSeparator(s[0]) then [s[0]] else []) + SepChars(s[1..])
  }

  /** Pieces with the given separators put back between them. */
  function Interleave(pieces: seq<string>, seps: seq<char>): string
    requires |pieces| == |seps| + 1
  {
    if seps == [] then pieces[0] else pieces[0] + [seps[0]] + Interleave(pieces[1..], seps[1..])
  }

  /** `SplitRaw` loses nothing: putting the separators back between its
      pieces gives the text. */
  lemma {:induction false} SplitRawInverse(s: string)
    ensures Interleave(SplitRaw(s), SepChars(s)) == s
  {
    if s != [] {
      var rest := SplitRaw(s[1..]);
      var seps := SepChars(s[1..]);
      assert Interleave(rest, seps) == s[1..] by {
        SplitRawInverse(s[1..]);
      }
      if IsSeparator(s[0]) {
        assert SplitRaw(s) == [""] + rest;
        assert SepChars(s) == [s[0]] + seps;
        assert ([""] + rest)[0] == "" && ([""] + rest)[1..] == rest;
        assert s == "" + [s[0]] + s[1..];
      } else {
        assert SplitRaw(s) == [[s[0]] + rest[0]] + rest[1..];
        assert SepChars(s) == seps;
        InterleaveCons(s[0], rest, seps);
        assert s == [s[0]] + s[1..];
      }
    }
  }

  lemma {:induction false} InterleaveCons(c: char, pieces: seq<string>, seps: seq<char>)
    requires |pieces| == |seps| + 1
    ensures Interleave([[c] + pieces[0]] + pieces[1..], seps) == [c] + Interleave(pieces, seps)
  {
    var glued := [[c] + pieces[0]] + pieces[1..];
    assert glued[0] == [c] + pieces[0] && glued[1..] == pieces[1..];
    if seps != [] {
      var tail := Interleave(pieces[1..], seps[1..]);
      assert Interleave(glued, seps) == ([c] + pieces[0]) + [seps[0]] + tail;
      assert ([c] + pieces[0]) + [seps[0]] + tail == [c] + (pieces[0] + [seps[0]] + tail);
    }
  }

  /** The converse of `SplitRawInverse`: separator-free pieces with the
      separators of `s` put back between them to give `s` are exactly the
      pieces `str::split` returns. */
  lemma SplitRawUnique(s: string, q: seq<string>)
    requires |q| == Separators(s) + 1
    requires forall k, i :: 0 <= k < |q| && 0 <= i < |q[k]| ==> !IsSeparator(q[k][i])
    requires Interleave(q, SepChars(s)) == s
    ensures q == SplitRaw(s)
  {
    SepCharsSeparators(s);
    SplitRawInterleave(q, SepChars(s));
  }

  lemma {:induction false} SepCharsSeparators(s: string)
    ensures forall j :: 0 <= j < |SepChars(s)| ==> IsSeparator(SepChars(s)[j])
  {
    if s != [] {
      SepCharsSeparators(s[1..]);
    }
  }

  /** Splitting separator-free pieces joined by separators gives the pieces. */
  lemma {:induction false} SplitRawInterleave(q: seq<string>, seps: seq<char>)
    requires |q| == |seps| + 1
    requires forall j :: 0 <= j < |seps| ==> IsSeparator(seps[j])
    requires forall k, i :: 0 <= k < |q| && 0 <= i < |q[k]| ==> !IsSeparator(q[k][i])
    ensures SplitRaw(Interleave(q, seps)) == q
    decreases |seps|
  {
    if seps == [] {
      SplitRawGlue(q[0], "");
      assert q[0] + "" == q[0];
      assert q == [q[0]];
    } else {
      var tail := Interleave(q[1..], seps[1..]);
      var after := [seps[0]] + tail;
      assert SplitRaw(tail) == q[1..] by {
        SplitRawInterleave(q[1..], seps[1..]);
      }
      assert SplitRaw(after) == [""] + q[1..] by {
        assert after[0] == seps[0] && after[1..] == tail;
      }
      assert Interleave(q, seps) == q[0] + after;
      SplitRawGlue(q[0], after);
      assert q[0] + "" == q[0];
      assert q == [q[0]] + q[1..];
    }
  }

  /** `"[" + part + "]"` for each part, concatenated. */
  function Brackets(parts: seq<string>): string {
    if parts == [] then "" else "[" + parts[0] + "]" + Brackets(parts[1..])
  }

  /** A path in bracket notation: `a[b][c]` for `["a", "b", "c"]`. */
  function Bracketed(p: seq<string>): string
    requires |p| > 0
  {
    p[0] + Brackets(p[1..])
  }

  /** Each part with its closing `]` kept, as `str::split` leaves it. */
  function Closed(parts: seq<string>): (r: seq<string>)
    ensures |r| == |parts|
  {
    seq(|parts|, k requires 0 <= k < |parts| => parts[k] + "]")
  }

  lemma {:induction false} SplitRawBrackets(x: string, rest: seq<string>)
    requires forall i :: 0 <= i < |x| ==> !IsSeparator(x[i])
    requires forall k, i :: 0 <= k < |rest| && 0 <= i < |rest[k]| ==> !IsSeparator(rest[k][i])
    ensures SplitRaw(x + Brackets(rest)) == [x] + Closed(rest)
    decreases |rest|
  {
    var b := Brackets(rest);
    SplitRawGlue(x, b);
    if rest == [] {
      assert x + b == x && SplitRaw(b) == [""];
      assert x + "" == x;
    } else {
      var head := rest[0] + "]";
      assert forall i :: 0 <= i < |head| ==> !IsSeparator(head[i]) by {
        assert forall i :: 0 <= i < |rest[0]| ==> head[i] == rest[0][i];
      }
      var after := Brackets(rest[1..]);
      assert b == "[" + (head + after);
      assert b[0] == '[' && b[1..] == head + after;
      SplitRawBrackets(head, rest[1..]);
      assert SplitRaw(b) == [""] + ([head] + Closed(rest[1..]));
      assert x + "" == x;
      assert Closed(rest) == [head] + Closed(rest[1..]);
    }
  }

  /** A segment followed by its closing `]` trims back to the segment. */
  lemma TrimClosed(seg: string)
    requires IsSegment(seg)
    ensures TrimEndBrackets(seg + "]") == seg
  {
    assert (seg + "]")[..|seg|] == seg;
  }

  /** Bracket notation and dot notation split to the same segments:
      `a[b][c]` and `a.b.c` both give `["a", "b", "c"]`. */
  lemma SplitBracketed(p: seq<string>)
    requires IsPath(p)
    ensures SplitIdent(Bracketed(p)) == p
    ensures SplitIdent(Join(".", p)) == p
  {
    assert SplitIdent(Join(".", p)) == p by {
      SplitJoin(p);
    }
    var raw := SplitRaw(Bracketed(p));
    assert raw == [p[0]] + Closed(p[1..]) by {
      forall k, i | 0 <= k < |p[1..]| && 0 <= i < |p[1..][k]| ensures !IsSeparator(p[1..][k][i]) {
        assert p[1..][k] == p[k + 1];
      }
      SplitRawBrackets(p[0], p[1..]);
    }
    forall k | 0 <= k < |p| ensures TrimEndBrackets(raw[k]) == p[k] {
      if k == 0 {
        TrimSegment(p[0]);
      } else {
        assert raw[k] == p[k] + "]";
        TrimClosed(p[k]);
      }
    }
  }

  /** A leading segment and a dot can be split off whatever follows, so the
      two notations mix: `x.rest` splits to `x` then the split of `rest`. */
  lemma SplitDotPrefix(x: string, rest: string)
    requires IsSegment(x)
    ensures SplitIdent(x + "." + rest) == [x] + SplitIdent(rest)
  {
    var raw := SplitRaw(x + "." + rest);
    var tail := SplitRaw(rest);
    SplitRawDotPrefix(x, rest);
    TrimSegment(x);
    var r := SplitIdent(x + "." + rest);
    var q := SplitIdent(rest);
    assert |r| == |q| + 1;
    forall k | 0 <= k < |r| ensures r[k] == ([x] + q)[k] {
      if k > 0 {
        assert raw[k] == tail[k - 1];
      }
    }
  }

  lemma SplitRawDotPrefix(x: string, rest: string)
    requires IsSegment(x)
    ensures SplitRaw(x + "." + rest) == [x] + SplitRaw(rest)
  {
    assert x + "." + rest == x + ("." + rest);
    SplitRawGlue(x, "." + rest);
    assert ("." + rest)[1..] == rest;
    assert SplitRaw("." + rest) == [""] + SplitRaw(rest);
    assert x + "" == x;
  }

  /** `b[c]`, for any two segments, is the bracket form of `[b, c]`. */
  lemma BracketPair(b: string, c: string)
    ensures Bracketed([b, c]) == b + "[" + c + "]"
  {
    assert [b, c][1..] == [c] && [c][1..] == [];
    assert Brackets([c]) == "[" + c + "]" + "";
  }

  /** `a[b][c]` is the bracket form of `[a, b, c]`. */
  lemma BracketTriple(a: string, b: string, c: string)
    ensures Bracketed([a, b, c]) == a + "[" + b + "]" + "[" + c + "]"
  {
    assert [a, b, c][1..] == [b, c] && [b, c][1..] == [c] && [c][1..] == [];
    var inner := "[" + c + "]";
    assert Brackets([c]) == inner + "";
    assert Brackets([b, c]) == "[" + b + "]" + inner;
    assert a + ("[" + b + "]" + inner) == a + "[" + b + "]" + inner;
  }

  /** The notations of the comment on `split_ident` (line 92), for any
      three segments: `a.b[c]` and `a[b][c]` both give `[a, b, c]`. */
  lemma MixedNotations(a: string, b: string, c: string)
    requires IsSegment(a) && IsSegment(b) && IsSegment(c)
    ensures SplitIdent(a + "." + b + "[" + c + "]") == [a, b, c]
    ensures SplitIdent(a + "[" + b + "]" + "[" + c + "]") == [a, b, c]
  {
    DotThenBracket(a, b, c);
    BracketTriple(a, b, c);
    SplitBracketed([a, b, c]);
  }

  /** `a.b[c]` gives `[a, b, c]`. */
  lemma DotThenBracket(a: string, b: string, c: string)
    requires IsSegment(a) && IsSegment(b) && IsSegment(c)
    ensures SplitIdent(a + "." + b + "[" + c + "]") == [a, b, c]
  {
    var bc := b + "[" + c + "]";
    assert SplitIdent(bc) == [b, c] by {
      BracketPair(b, c);
      SplitBracketed([b, c]);
    }
    SplitDotPrefix(a, bc);
    assert [a] + [b, c] == [a, b, c];
    assert a + "." + bc == a + "." + b + "[" + c + "]";
  }

  /** `MixedNotations` on the names of line 92. */
  lemma SplitNotations()
    ensures SplitIdent("a.b[c]") == ["a", "b", "c"]
    ensures SplitIdent("a[b][c]") == ["a", "b", "c"]
  {
    assert IsSegment("a") && IsSegment("b") && IsSegment("c");
    MixedNotations("a", "b", "c");
    assert "a" + "." + "b" + "[" + "c" + "]" == "a.b[c]";
    assert "a" + "[" + "b" + "]" + "[" + "c" + "]" == "a[b][c]";
  }
}
