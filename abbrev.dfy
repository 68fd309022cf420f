/** `abbreviate_combo`, the bar-chart label of a combination key, written
    identically in the three aggregate evaluators: every `"__"`-separated
    synonym becomes the lower-cased initials of its words, and the pieces
    are joined with `"_"`. */
module Abbrev {
  import opened PyStr

  /** The lower-cased first letter of every word, in order. */
  function Initials(words: seq<string>): (r: string)
    requires forall i :: 0 <= i < |words| ==> words[i] != []
    ensures |r| == |words|
    ensures forall i :: 0 <= i < |words| ==> r[i] == LowerChar(words[i][0])
  {
    if words == [] then [] else [LowerChar(words[0][0])] + Initials(words[1..])
  }

  /** One synonym's abbreviation; a part with no word gives the empty string. */
  function AbbreviatePart(part: string): string {
    var words := SplitWs(part);
    if words != [] then Initials(words) else ""
  }

  function AbbreviateParts(parts: seq<string>): (r: seq<string>)
    ensures |r| == |parts|
  {
    seq(|parts|, i requires 0 <= i < |parts| => AbbreviatePart(parts[i]))
  }

  /** `abbreviate_combo(combo_key)` */
  function AbbreviateCombo(comboKey: string): string {
    Join(AbbreviateParts(SplitOn(comboKey, "__")), "_")
  }

  /** A part with one letter per word: its abbreviation has one letter per
      word, each the lower-cased first letter of that word. */
  lemma AbbreviatePartLetters(part: string)
    ensures |AbbreviatePart(part)| == |SplitWs(part)|
    ensures forall i :: 0 <= i < |SplitWs(part)| ==>
      AbbreviatePart(part)[i] == LowerChar(SplitWs(part)[i][0])
  {
  }

  /** When `sep`'s first character is absent from `p`, the first occurrence of
      `sep` in `p + sep + t` is right after `p`. */
  lemma FindAfterClean(p: string, sep: string, t: string)
    requires |sep| > 0 && sep[0] !in p
    ensures Find(p + sep + t, sep) == |p|
  {
    var s := p + sep + t;
    assert s[|p|..|p| + |sep|] == sep;
    assert OccursAt(s, sep, |p|);
    forall j | 0 <= j < |p|
      ensures !OccursAt(s, sep, j)
    {
      if j + |sep| <= |s| {
        assert s[j..j + |sep|][0] == p[j] != sep[0];
      }
    }
  }

  /** A string without `sep`'s first character does not contain `sep`. */
  lemma FindClean(p: string, sep: string)
    requires |sep| > 0 && sep[0] !in p
    ensures Find(p, sep) < 0
  {
    forall j | 0 <= j
      ensures !OccursAt(p, sep, j)
    {
      if j + |sep| <= |p| {
        assert p[j..j + |sep|][0] == p[j] != sep[0];
      }
    }
  }

  /** Joining parts that do not hold the separator's first character and
      splitting the result again gives the parts back. */
  lemma {:induction false} SplitOnJoin(parts: seq<string>, sep: string)
    requires |parts| >= 1 && |sep| > 0
    requires forall i :: 0 <= i < |parts| ==> sep[0] !in parts[i]
    ensures SplitOn(Join(parts, sep), sep) == parts
    decreases |parts|
  {
    if |parts| == 1 {
      FindClean(parts[0], sep);
    } else {
      var rest := Join(parts[1..], sep);
      assert Join(parts, sep) == parts[0] + sep + rest;
      FindAfterClean(parts[0], sep, rest);
      var s := parts[0] + sep + rest;
      assert s[..|parts[0]|] == parts[0];
      assert s[|parts[0]| + |sep|..] == rest;
      SplitOnJoin(parts[1..], sep);
    }
  }

  /** For synonyms without `_`, the abbreviation of their combination key is
      the `_`-join of each synonym's own abbreviation. */
  lemma AbbreviateComboKey(combo: seq<string>)
    requires |combo| >= 1
    requires forall i :: 0 <= i < |combo| ==> '_' !in combo[i]
    ensures AbbreviateCombo(Join(combo, "__")) == Join(AbbreviateParts(combo), "_")
  {
    SplitOnJoin(combo, "__");
  }

  lemma OneWordPart(w: string)
    requires w != [] && NoSpace(w)
    ensures AbbreviatePart(w) == [LowerChar(w[0])]
  {
    SplitWsWord(w);
  }

  lemma TwoWordPart(w1: string, w2: string)
    requires w1 != [] && w2 != [] && NoSpace(w1) && NoSpace(w2)
    ensures AbbreviatePart(w1 + " " + w2) == [LowerChar(w1[0]), LowerChar(w2[0])]
  {
    TwoWords(w1, w2);
    InitialsTwo(w1, w2);
  }

  lemma TwoWords(w1: string, w2: string)
    requires w1 != [] && w2 != [] && NoSpace(w1) && NoSpace(w2)
    ensures SplitWs(w1 + " " + w2) == [w1, w2]
  {
    calc {
      SplitWs(w1 + " " + w2);
      { SplitWsCons(w1, w2); }
      [w1] + SplitWs(w2);
      { SplitWsWord(w2); }
      [w1] + [w2];
    }
  }

  lemma InitialsTwo(w1: string, w2: string)
    requires w1 != [] && w2 != []
    ensures Initials([w1, w2]) == [LowerChar(w1[0]), LowerChar(w2[0])]
  {
    var r := Initials([w1, w2]);
    assert |r| == 2;
  }

  lemma JoinTwo(x: string, y: string, sep: string)
    ensures Join([x, y], sep) == x + sep + y
  {
    assert [x, y][1..] == [y];
  }

  /** The shape of `"anatomy__body part"`: a one-word synonym and a two-word
      synonym abbreviate to the first one's initial, `_`, and both initials
      of the second, e.g. `"a_bp"`. */
  lemma OneWordTwoWords(a: string, b1: string, b2: string)
    requires a != [] && b1 != [] && b2 != []
    requires NoSpace(a) && NoSpace(b1) && NoSpace(b2)
    requires '_' !in a && '_' !in b1 && '_' !in b2
    ensures AbbreviateCombo(a + "__" + (b1 + " " + b2))
      == [LowerChar(a[0])] + "_" + [LowerChar(b1[0]), LowerChar(b2[0])]
  {
    var b := b1 + " " + b2;
    var combo := [a, b];
    JoinTwo(a, b, "__");
    assert '_' !in b;
    AbbreviateComboKey(combo);
    OneWordPart(a);
    TwoWordPart(b1, b2);
    var ab := AbbreviateParts(combo);
    assert ab == [AbbreviatePart(a), AbbreviatePart(b)];
    JoinTwo(ab[0], ab[1], "_");
  }

  /** The key `"anatomy__body part"` abbreviates to `"a_bp"`: every word of
      a multi-word synonym keeps its initial. */
  lemma AnatomyBodyPart(a: string, b1: string, b2: string)
    requires a == "anatomy" && b1 == "body" && b2 == "part"
    ensures AbbreviateCombo(a + "__" + (b1 + " " + b2)) == "a_bp"
  {
    PlainWord(a);
    PlainWord(b1);
    PlainWord(b2);
    OneWordTwoWords(a, b1, b2);
  }

  /** The words of the example key hold no space and no `_`. */
  lemma PlainWord(w: string)
    requires w == "anatomy" || w == "body" || w == "part"
    ensures w != [] && NoSpace(w) && '_' !in w
  {
  }

  /** `combo.replace("__", "_").replace(" ", "_").replace("/", "_").replace("\\", "_")`:
      the file-name form of a combination key. */
  function SafeComboName(combo: string): (r: string)
    ensures ' ' !in r && '/' !in r && '\\' !in r
  {
    var a := Replace(combo, "__", "_");
    var b := Replace(a, " ", "_");
    var c := Replace(b, "/", "_");
    ReplaceRemoves(a, ' ', "_");
    ReplaceRemoves(b, '/', "_");
    ReplaceKeepsOut(b, "/", "_", ' ');
    var d := Replace(c, "\\", "_");
    ReplaceRemoves(c, '\\', "_");
    ReplaceKeepsOut(c, "\\", "_", ' ');
    ReplaceKeepsOut(c, "\\", "_", '/');
    d
  }

  /** A name with none of the replaced patterns is its own file-name form. */
  lemma SafeComboNameKeepsClean(combo: string)
    requires !Contains(combo, "__") && ' ' !in combo && '/' !in combo && '\\' !in combo
    ensures SafeComboName(combo) == combo
  {
    FindClean(combo, " ");
    FindClean(combo, "/");
    FindClean(combo, "\\");
  }
}
