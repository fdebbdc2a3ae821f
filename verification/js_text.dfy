/**
 * The two string built-ins the action menu uses to turn a class string into
 * class names: `String.prototype.trim` and `split(/\s+/g)`. Both rest on the
 * ECMAScript notion of white space (ECMAScript 2015, sections 11.2 White Space
 * and 11.3 Line Terminators), which is also what `\s` matches in a regular
 * expression.
 */
module JsText {

  /** ECMAScript WhiteSpace or LineTerminator: TAB, VT, FF, SP, NBSP, ZWNBSP, the other Unicode Zs characters, LF, CR, LS, PS. */
  predicate IsWhitespace(c: char)
  {
    c == '\U{9}' || c == '\U{B}' || c == '\U{C}' || c == '\U{20}' || c == '\U{A0}' ||
    c == '\U{FEFF}' || c == '\U{1680}' || ('\U{2000}' <= c <= '\U{200A}') || c == '\U{202F}' ||
    c == '\U{205F}' || c == '\U{3000}' ||
    c == '\U{A}' || c == '\U{D}' || c == '\U{2028}' || c == '\U{2029}'
  }

  /** True when `s` holds no white space at all. */
  predicate NoWhitespace(s: string)
  {
    forall i :: 0 <= i < |s| ==> !IsWhitespace(s[i])
  }

  /** True when `s` neither starts nor ends with white space. */
  predicate Trimmed(s: string)
  {
    s == "" || (!IsWhitespace(s[0]) && !IsWhitespace(s[|s| - 1]))
  }

  /** `s` without its leading run of white space. */
  function TrimStart(s: string): (r: string)
    ensures |r| <= |s| && r == s[|s| - |r|..]
    ensures r == "" || !IsWhitespace(r[0])
    ensures forall i :: 0 <= i < |s| - |r| ==> IsWhitespace(s[i])
  {
    if s != "" && IsWhitespace(s[0]) then TrimStart(s[1..]) else s
  }

  /** `s` without its trailing run of white space. */
  function TrimEnd(s: string): (r: string)
    ensures |r| <= |s| && r == s[..|r|]
    ensures r == "" || !IsWhitespace(r[|r| - 1])
    ensures forall i :: |r| <= i < |s| ==> IsWhitespace(s[i])
  {
    if s != "" && IsWhitespace(s[|s| - 1]) then TrimEnd(s[..|s| - 1]) else s
  }

  /** `s.trim()`: white space removed from both ends. */
  function Trim(s: string): string
  {
    TrimEnd(TrimStart(s))
  }

  /** The characters of `s` that are not white space, in order. */
  function NonWhitespace(s: string): string
  {
    if s == "" then ""
    else if IsWhitespace(s[0]) then NonWhitespace(s[1..])
    else [s[0]] + NonWhitespace(s[1..])
  }

  /**
   * `s.split(/\s+/g)`: the fields between maximal runs of white space. A
   * leading or trailing run yields an empty first or last field, and the
   * empty string splits into one empty field. Defined one character at a
   * time: a white-space character followed by another one belongs to the
   * same run.
   */
  function Split(s: string): (r: seq<string>)
    ensures |r| >= 1
    ensures r[0] == "" <==> s == "" || IsWhitespace(s[0])
  {
    if s == "" then [""]
    else
      var rest := Split(s[1..]);
      if !IsWhitespace(s[0]) then [[s[0]] + rest[0]] + rest[1..]
      else if |s| > 1 && IsWhitespace(s[1]) then rest
      else [""] + rest
  }

  /** The white-space runs `Split` cuts `s` at, in order: one between each two neighbouring fields. */
  function Separators(s: string): (r: seq<string>)
    ensures s != "" && IsWhitespace(s[0]) ==> |r| >= 1
  {
    if s == "" then []
    else
      var rest := Separators(s[1..]);
      if !IsWhitespace(s[0]) then rest
      else if |s| > 1 && IsWhitespace(s[1]) then [[s[0]] + rest[0]] + rest[1..]
      else [[s[0]]] + rest
  }

  /** A non-empty run of white space. */
  predicate Blank(s: string)
  {
    s != "" && forall i :: 0 <= i < |s| ==> IsWhitespace(s[i])
  }

  /** The fields joined back together with the given separators between them. */
  function Interleave(fields: seq<string>, seps: seq<string>): string
    requires |fields| == |seps| + 1
  {
    if seps == [] then fields[0] else fields[0] + seps[0] + Interleave(fields[1..], seps[1..])
  }

  /** The concatenation of a sequence of strings. */
  function Concat(parts: seq<string>): string
  {
    if parts == [] then "" else parts[0] + Concat(parts[1..])
  }

  /** Trimming leaves nothing exactly when the string is all white space. */
  lemma TrimEmptyIffBlank(s: string)
    ensures Trim(s) == "" <==> (forall i :: 0 <= i < |s| ==> IsWhitespace(s[i]))
  {
    var t := TrimStart(s);
    assert Trim(s) == "" ==> t == "";
    assert t != "" ==> t[0] == s[|s| - |t|];
  }

  /** The result of trimming neither starts nor ends with white space. */
  lemma TrimIsTrimmed(s: string)
    ensures Trimmed(Trim(s))
  {
    var t := TrimStart(s);
    var r := TrimEnd(t);
    if r != "" {
      assert r[0] == t[0];
    }
  }

  /** The result of trimming is the slice of `s` between a leading and a trailing run of white space. */
  lemma TrimIsSlice(s: string)
    ensures exists a, b :: 0 <= a <= b <= |s| && Trim(s) == s[a..b] &&
                           (forall i :: 0 <= i < a ==> IsWhitespace(s[i])) &&
                           (forall i :: b <= i < |s| ==> IsWhitespace(s[i]))
  {
    var t := TrimStart(s);
    var a := |s| - |t|;
    var b := a + |Trim(s)|;
    SliceOfSuffix(s, t, Trim(s));
    assert Trim(s) == s[a..b];
  }

  /** A prefix `r` of the suffix `t` of `s` is a slice of `s`, and what follows it in `t` follows it in `s`. */
  lemma SliceOfSuffix(s: string, t: string, r: string)
    requires |t| <= |s| && t == s[|s| - |t|..]
    requires |r| <= |t| && r == t[..|r|]
    requires forall i :: |r| <= i < |t| ==> IsWhitespace(t[i])
    ensures r == s[|s| - |t|..|s| - |t| + |r|]
    ensures forall i :: |s| - |t| + |r| <= i < |s| ==> IsWhitespace(s[i])
  {
    var a := |s| - |t|;
    forall i | a + |r| <= i < |s| ensures IsWhitespace(s[i]) {
      assert s[i] == t[i - a];
    }
  }

  /** Splitting never loses or invents a character: the fields hold exactly the non-white-space characters of `s`, in order. */
  lemma {:induction false} SplitKeepsText(s: string)
    ensures Concat(Split(s)) == NonWhitespace(s)
    decreases |s|
  {
    if s != "" {
      var rest := Split(s[1..]);
      SplitKeepsText(s[1..]);
      if !IsWhitespace(s[0]) {
        calc {
          Concat(Split(s));
          ([s[0]] + rest[0]) + Concat(rest[1..]);
          [s[0]] + (rest[0] + Concat(rest[1..]));
          [s[0]] + Concat(rest);
        }
      } else if !(|s| > 1 && IsWhitespace(s[1])) {
        ConcatEmptyFirst(rest);
      }
    }
  }

  /** An empty first part adds nothing to a concatenation. */
  lemma ConcatEmptyFirst(parts: seq<string>)
    ensures Concat([""] + parts) == Concat(parts)
  {
    assert ([""] + parts)[1..] == parts;
  }

  /**
   * Splitting cuts exactly at the white-space runs: `s` is its fields joined
   * by non-empty runs of white space, one between each two neighbouring
   * fields. With SplitFieldsHaveNoWhitespace, no two class names are merged
   * and none is cut in two.
   */
  lemma {:induction false} SplitAtWhitespaceRuns(s: string)
    ensures |Separators(s)| == |Split(s)| - 1
    ensures forall i :: 0 <= i < |Separators(s)| ==> Blank(Separators(s)[i])
    ensures s == Interleave(Split(s), Separators(s))
    decreases |s|
  {
    if s != "" {
      SplitAtWhitespaceRuns(s[1..]);
      if !IsWhitespace(s[0]) {
        LeadingField(s);
      } else if |s| > 1 && IsWhitespace(s[1]) {
        RunContinues(s);
      } else {
        RunEnds(s);
      }
    }
  }

  /** The step of SplitAtWhitespaceRuns for a string that starts with a field character. */
  lemma LeadingField(s: string)
    requires s != "" && !IsWhitespace(s[0])
    requires |Separators(s[1..])| == |Split(s[1..])| - 1
    requires s[1..] == Interleave(Split(s[1..]), Separators(s[1..]))
    ensures Separators(s) == Separators(s[1..])
    ensures s == Interleave(Split(s), Separators(s))
  {
    var rest := Split(s[1..]);
    var seps := Separators(s[1..]);
    assert Split(s) == [[s[0]] + rest[0]] + rest[1..];
    InterleavePrepend(s[0], rest, seps);
    assert s == [s[0]] + s[1..];
  }

  /** The step of SplitAtWhitespaceRuns for a white-space character followed by another one: it joins the first separator. */
  lemma RunContinues(s: string)
    requires |s| > 1 && IsWhitespace(s[0]) && IsWhitespace(s[1])
    requires |Separators(s[1..])| == |Split(s[1..])| - 1
    requires forall i :: 0 <= i < |Separators(s[1..])| ==> Blank(Separators(s[1..])[i])
    requires s[1..] == Interleave(Split(s[1..]), Separators(s[1..]))
    ensures |Separators(s)| == |Split(s)| - 1
    ensures forall i :: 0 <= i < |Separators(s)| ==> Blank(Separators(s)[i])
    ensures s == Interleave(Split(s), Separators(s))
  {
    var fields := Split(s[1..]);
    var seps := Separators(s[1..]);
    assert Split(s) == fields;
    assert Separators(s) == [[s[0]] + seps[0]] + seps[1..];
    var r := Separators(s);
    forall i | 0 <= i < |r| ensures Blank(r[i]) {
      if i > 0 {
        assert r[i] == seps[i];
      } else {
        BlankPrepend(s[0], seps[0]);
      }
    }
    InterleaveSeparatorPrepend(s[0], fields, seps);
    assert s == [s[0]] + s[1..];
  }

  /** The step of SplitAtWhitespaceRuns for the last white-space character of a run: it is a separator of its own in front of the rest. */
  lemma RunEnds(s: string)
    requires s != "" && IsWhitespace(s[0]) && !(|s| > 1 && IsWhitespace(s[1]))
    requires |Separators(s[1..])| == |Split(s[1..])| - 1
    requires forall i :: 0 <= i < |Separators(s[1..])| ==> Blank(Separators(s[1..])[i])
    requires s[1..] == Interleave(Split(s[1..]), Separators(s[1..]))
    ensures |Separators(s)| == |Split(s)| - 1
    ensures forall i :: 0 <= i < |Separators(s)| ==> Blank(Separators(s)[i])
    ensures s == Interleave(Split(s), Separators(s))
  {
    var fields := Split(s[1..]);
    var seps := Separators(s[1..]);
    assert Split(s) == [""] + fields;
    assert Separators(s) == [[s[0]]] + seps;
    BlankInFront([s[0]], seps);
    InterleaveEmptyFirst([s[0]], fields, seps);
    assert s == [s[0]] + s[1..];
  }

  /** A white-space character in front of a run of white space is a run of white space. */
  lemma BlankPrepend(c: char, sep: string)
    requires IsWhitespace(c) && Blank(sep)
    ensures Blank([c] + sep)
  {
    forall i | 0 <= i < |[c] + sep| ensures IsWhitespace(([c] + sep)[i]) {
      if i > 0 { assert ([c] + sep)[i] == sep[i - 1]; }
    }
  }

  /** A blank separator in front of blank separators. */
  lemma BlankInFront(sep: string, seps: seq<string>)
    requires Blank(sep) && forall i :: 0 <= i < |seps| ==> Blank(seps[i])
    ensures forall i :: 0 <= i < |[sep] + seps| ==> Blank(([sep] + seps)[i])
  {
    forall i | 0 <= i < |[sep] + seps| ensures Blank(([sep] + seps)[i]) {
      if i > 0 { assert ([sep] + seps)[i] == seps[i - 1]; }
    }
  }

  /** An empty first field contributes nothing but its separator. */
  lemma InterleaveEmptyFirst(sep: string, fields: seq<string>, seps: seq<string>)
    requires |fields| == |seps| + 1
    ensures Interleave([""] + fields, [sep] + seps) == sep + Interleave(fields, seps)
  {
    var f, g := [""] + fields, [sep] + seps;
    assert f[0] == "" && f[1..] == fields;
    assert g[0] == sep && g[1..] == seps;
    InterleaveStep(f, g);
    EmptyInFront(sep, Interleave(fields, seps));
  }

  /** Interleave with at least one separator, unfolded once. */
  lemma InterleaveStep(fields: seq<string>, seps: seq<string>)
    requires |fields| == |seps| + 1 && seps != []
    ensures Interleave(fields, seps) == fields[0] + seps[0] + Interleave(fields[1..], seps[1..])
  {
  }

  /** The empty string in front changes nothing. */
  lemma EmptyInFront(x: string, y: string)
    ensures "" + x + y == x + y
  {
  }

  /** Putting a character in front of the first field puts it in front of the joined string. */
  lemma InterleavePrepend(c: char, fields: seq<string>, seps: seq<string>)
    requires |fields| == |seps| + 1
    ensures Interleave([[c] + fields[0]] + fields[1..], seps) == [c] + Interleave(fields, seps)
  {
    var x := fields[0];
    var more := fields[1..];
    var f := [[c] + x] + more;
    assert f[0] == [c] + x;
    assert f[1..] == more;
    if seps != [] {
      var tail := Interleave(more, seps[1..]);
      assert Interleave(f, seps) == ([c] + x) + seps[0] + tail;
      assert Interleave(fields, seps) == x + seps[0] + tail;
      ConsAssociates(c, x, seps[0], tail);
    }
  }

  /** When the first field is empty, putting a character in front of the first separator puts it in front of the joined string. */
  lemma InterleaveSeparatorPrepend(c: char, fields: seq<string>, seps: seq<string>)
    requires |fields| == |seps| + 1 && |seps| >= 1 && fields[0] == ""
    ensures Interleave(fields, [[c] + seps[0]] + seps[1..]) == [c] + Interleave(fields, seps)
  {
    var y := seps[0];
    var g := [[c] + y] + seps[1..];
    assert g[0] == [c] + y && g[1..] == seps[1..];
    var tail := Interleave(fields[1..], seps[1..]);
    InterleaveEmptyHead(fields, g);
    InterleaveEmptyHead(fields, seps);
    ConsRegroups(c, y, tail);
  }

  /** Interleave whose first field is empty, unfolded once. */
  lemma InterleaveEmptyHead(fields: seq<string>, seps: seq<string>)
    requires |fields| == |seps| + 1 && seps != [] && fields[0] == ""
    ensures Interleave(fields, seps) == seps[0] + Interleave(fields[1..], seps[1..])
  {
    InterleaveStep(fields, seps);
    EmptyInFront(seps[0], Interleave(fields[1..], seps[1..]));
  }

  /** Concatenation regroups around a leading character. */
  lemma ConsRegroups(c: char, y: string, z: string)
    ensures ([c] + y) + z == [c] + (y + z)
  {
  }

  /** Concatenation regroups around a leading character. */
  lemma ConsAssociates(c: char, x: string, y: string, z: string)
    ensures ([c] + x) + y + z == [c] + (x + y + z)
  {
  }

  /** No field of a split holds white space. */
  lemma {:induction false} SplitFieldsHaveNoWhitespace(s: string)
    ensures forall i :: 0 <= i < |Split(s)| ==> NoWhitespace(Split(s)[i])
    decreases |s|
  {
    if s != "" {
      SplitFieldsHaveNoWhitespace(s[1..]);
      var rest := Split(s[1..]);
      var r := Split(s);
      if !IsWhitespace(s[0]) {
        forall i | 0 <= i < |r| ensures NoWhitespace(r[i]) {
          if i > 0 {
            assert r[i] == rest[i];
          } else {
            assert NoWhitespace(rest[0]);
            forall j | 0 <= j < |r[0]| ensures !IsWhitespace(r[0][j]) {
              if j > 0 { assert r[0][j] == rest[0][j - 1]; }
            }
          }
        }
      } else if !(|s| > 1 && IsWhitespace(s[1])) {
        forall i | 0 <= i < |r| ensures NoWhitespace(r[i]) {
          if i > 0 { assert r[i] == rest[i - 1]; }
        }
      }
    }
  }

  /** When `s` does not end in white space, every field after the first is non-empty (and by Split's contract the first one is too when `s` starts with a field character). */
  lemma {:induction false} SplitFieldsNonEmpty(s: string)
    requires s == "" || !IsWhitespace(s[|s| - 1])
    ensures forall i :: 1 <= i < |Split(s)| ==> Split(s)[i] != ""
    decreases |s|
  {
    if s != "" {
      var t := s[1..];
      assert t == "" || t[|t| - 1] == s[|s| - 1];
      SplitFieldsNonEmpty(t);
      var rest := Split(t);
      var r := Split(s);
      if !IsWhitespace(s[0]) {
        forall i | 1 <= i < |r| ensures r[i] != "" {
          assert r[i] == rest[i];
        }
      } else if !(|s| > 1 && IsWhitespace(s[1])) {
        assert rest[0] != "";
        forall i | 1 <= i < |r| ensures r[i] != "" {
          assert r[i] == rest[i - 1];
        }
      }
    }
  }

  /** The class names taken from a class string: the fields of its trimmed form. Unless the string is blank, every one is a non-empty name without white space, and together they spell its non-white-space characters. */
  lemma ClassTokens(s: string)
    requires Trim(s) != ""
    ensures forall i :: 0 <= i < |Split(Trim(s))| ==> Split(Trim(s))[i] != "" && NoWhitespace(Split(Trim(s))[i])
    ensures Concat(Split(Trim(s))) == NonWhitespace(Trim(s))
  {
    TrimIsTrimmed(s);
    SplitFieldsNonEmpty(Trim(s));
    SplitFieldsHaveNoWhitespace(Trim(s));
    SplitKeepsText(Trim(s));
  }
}
