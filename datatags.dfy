/**
 * The `data-tags` attribute of a card: the card generator joins the
 * normalised tags with ", ", the filter splits the attribute on ',',
 * trims every piece and drops the empty ones.
 */
module DataTags {

  /** The characters String.prototype.trim removes: ECMAScript white space and line terminators. */
  predicate IsWhitespace(c: char) {
    c == '\t' || c == '\n' || c == '\U{000B}' || c == '\U{000C}' || c == '\r' || c == ' ' ||
    c == '\U{00A0}' || c == '\U{1680}' || ('\U{2000}' <= c <= '\U{200A}') ||
    c == '\U{2028}' || c == '\U{2029}' || c == '\U{202F}' || c == '\U{205F}' ||
    c == '\U{3000}' || c == '\U{FEFF}'
  }

  predicate AllWhitespace(s: string) {
    forall i :: 0 <= i < |s| ==> IsWhitespace(s[i])
  }

  /** A token that survives split, trim and drop-empty unchanged. */
  predicate Clean(t: string) {
    t != [] && ',' !in t && !IsWhitespace(t[0]) && !IsWhitespace(t[|t| - 1])
  }

  /** `tags.join(", ")`. */
  function Join(tags: seq<string>): string {
    if |tags| == 0 then ""
    else if |tags| == 1 then tags[0]
    else tags[0] + ", " + Join(tags[1..])
  }

  /** `s.split(sep)`: the pieces between separators; never empty, "" gives [""]. */
  function Split(s: string, sep: char): (parts: seq<string>)
    ensures |parts| >= 1
    ensures forall i :: 0 <= i < |parts| ==> sep !in parts[i]
  {
    if |s| == 0 then [""]
    else if s[0] == sep then [""] + Split(s[1..], sep)
    else
      var rest := Split(s[1..], sep);
      [[s[0]] + rest[0]] + rest[1..]
  }

  /** Joining the pieces of a split with the separator gives back the string. */
  function JoinWith(parts: seq<string>, sep: char): string
    requires |parts| >= 1
  {
    if |parts| == 1 then parts[0] else parts[0] + [sep] + JoinWith(parts[1..], sep)
  }

  lemma {:induction false} SplitJoinWith(s: string, sep: char)
    ensures JoinWith(Split(s, sep), sep) == s
  {
    if |s| > 0 {
      SplitJoinWith(s[1..], sep);
      var rest := Split(s[1..], sep);
      if s[0] == sep {
        assert Split(s, sep)[1..] == rest;
      } else {
        var parts := Split(s, sep);
        assert parts[1..] == rest[1..];
        if |rest| > 1 {
          assert rest[1..][1..] == rest[2..] && parts[1..][1..] == rest[2..];
          assert JoinWith(rest, sep) == rest[0] + [sep] + JoinWith(rest[1..], sep);
          assert JoinWith(parts, sep) == ([s[0]] + rest[0]) + [sep] + JoinWith(rest[1..], sep);
        }
        assert s == [s[0]] + s[1..];
      }
    }
  }

  /** A piece without a separator is not split further. */
  lemma {:induction false} SplitNoSep(a: string, sep: char)
    requires sep !in a
    ensures Split(a, sep) == [a]
  {
    if |a| > 0 {
      SplitNoSep(a[1..], sep);
      assert a == [a[0]] + a[1..];
    }
  }

  /** Splitting at the first separator. */
  lemma {:induction false} SplitAtSep(a: string, sep: char, b: string)
    requires sep !in a
    ensures Split(a + [sep] + b, sep) == [a] + Split(b, sep)
  {
    if |a| == 0 {
      assert a + [sep] + b == [sep] + b;
      assert ([sep] + b)[1..] == b;
    } else {
      var s := a + [sep] + b;
      assert s[1..] == a[1..] + [sep] + b;
      SplitAtSep(a[1..], sep, b);
      assert a == [a[0]] + a[1..];
    }
  }

  function TrimStart(s: string): (r: string)
    ensures |r| <= |s| && r == s[|s| - |r|..]
    ensures r == [] || !IsWhitespace(r[0])
  {
    if |s| > 0 && IsWhitespace(s[0]) then TrimStart(s[1..]) else s
  }

  function TrimEnd(s: string): (r: string)
    ensures |r| <= |s| && r == s[..|r|]
    ensures r == [] || !IsWhitespace(r[|r| - 1])
  {
    if |s| > 0 && IsWhitespace(s[|s| - 1]) then TrimEnd(s[..|s| - 1]) else s
  }

  /** TrimStart cuts off white space only. */
  lemma {:induction false} TrimStartCutsWhitespace(s: string)
    ensures AllWhitespace(s[..|s| - |TrimStart(s)|])
  {
    if |s| > 0 && IsWhitespace(s[0]) {
      TrimStartCutsWhitespace(s[1..]);
      var k := |s| - |TrimStart(s)|;
      assert s[..k] == [s[0]] + s[1..][..k - 1];
    }
  }

  /** TrimEnd cuts off white space only. */
  lemma {:induction false} TrimEndCutsWhitespace(s: string)
    ensures AllWhitespace(s[|TrimEnd(s)|..])
  {
    if |s| > 0 && IsWhitespace(s[|s| - 1]) {
      var p := s[..|s| - 1];
      TrimEndCutsWhitespace(p);
      var k := |TrimEnd(s)|;
      assert s[k..] == p[k..] + [s[|s| - 1]];
    }
  }

  /**
   * `s.trim()`: the middle of `s` once the white space at both ends is cut
   * off, so that neither end of the result is white space.
   */
  function Trim(s: string): (r: string)
    ensures r == [] || (!IsWhitespace(r[0]) && !IsWhitespace(r[|r| - 1]))
    ensures forall c :: c in r ==> c in s
  {
    var t := TrimStart(s);
    var r := TrimEnd(t);
    assert forall c :: c in r ==> c in t;
    r
  }

  /**
   * What `trim()` cuts off: only white space, and only at the two ends.
   * With the ensures of Trim this fixes the result for every string.
   */
  lemma TrimMeaning(s: string)
    ensures exists i :: (0 <= i <= |s| - |Trim(s)| && Trim(s) == s[i..i + |Trim(s)|] &&
                         AllWhitespace(s[..i]) && AllWhitespace(s[i + |Trim(s)|..]))
  {
    var t := TrimStart(s);
    var r := TrimEnd(t);
    var i := |s| - |t|;
    TrimStartCutsWhitespace(s);
    TrimEndCutsWhitespace(t);
    assert r == s[i..i + |r|];
    assert s[i + |r|..] == t[|r|..];
  }

  lemma {:induction false} TrimPadded(p: string, t: string)
    requires AllWhitespace(p) && Clean(t)
    ensures Trim(p + t) == t
  {
    if |p| > 0 {
      assert (p + t)[1..] == p[1..] + t;
      TrimPadded(p[1..], t);
    } else {
      assert p + t == t;
    }
  }

  /** Trim every piece and drop the empty ones. */
  function TrimNonEmpty(parts: seq<string>): seq<string> {
    if parts == [] then []
    else
      var t := Trim(parts[0]);
      if t == "" then TrimNonEmpty(parts[1..]) else [t] + TrimNonEmpty(parts[1..])
  }

  /** The tags the filter reads back from a card's `data-tags` attribute. */
  function ParseDataTags(attr: string): seq<string> {
    TrimNonEmpty(Split(attr, ','))
  }

  lemma {:induction false} TrimNonEmptyClean(parts: seq<string>)
    requires forall i :: 0 <= i < |parts| ==> ',' !in parts[i]
    ensures forall i :: 0 <= i < |TrimNonEmpty(parts)| ==> Clean(TrimNonEmpty(parts)[i])
  {
    if parts != [] {
      var rest := parts[1..];
      assert forall i :: 0 <= i < |rest| ==> rest[i] == parts[i + 1];
      TrimNonEmptyClean(rest);
      var t := Trim(parts[0]);
      if t != "" {
        assert ',' !in parts[0];
        assert ',' !in t;
        assert Clean(t);
      }
    }
  }

  /** Whatever the attribute holds, the tags read back are non-empty, trimmed and free of commas. */
  lemma ParsedTagsAreClean(attr: string)
    ensures forall i :: 0 <= i < |ParseDataTags(attr)| ==> Clean(ParseDataTags(attr)[i])
  {
    TrimNonEmptyClean(Split(attr, ','));
  }

  /** A piece that trims to a non-empty token contributes that token. */
  lemma TrimNonEmptyCons(a: string, b: string, t: string)
    requires ',' !in a && Trim(a) == t && t != ""
    ensures TrimNonEmpty([a] + Split(b, ',')) == [t] + TrimNonEmpty(Split(b, ','))
  {
    var rest := Split(b, ',');
    assert ([a] + rest)[0] == a && ([a] + rest)[1..] == rest;
  }

  /** The first token of a padded join is split off at its comma. */
  lemma SplitPaddedJoin(p: string, tags: seq<string>)
    requires ',' !in p && |tags| >= 2 && ',' !in tags[0]
    ensures Split(p + Join(tags), ',') == [p + tags[0]] + Split(" " + Join(tags[1..]), ',')
  {
    var rest := Join(tags[1..]);
    assert Join(tags) == tags[0] + ", " + rest;
    assert p + Join(tags) == (p + tags[0]) + [','] + (" " + rest);
    SplitAtSep(p + tags[0], ',', " " + rest);
  }

  /** One step of reading back a padded join: the first token comes out, the rest is padded by the space. */
  lemma ParseJoinStep(p: string, tags: seq<string>)
    requires AllWhitespace(p) && ',' !in p
    requires |tags| >= 2 && Clean(tags[0])
    ensures TrimNonEmpty(Split(p + Join(tags), ',')) ==
      [tags[0]] + TrimNonEmpty(Split(" " + Join(tags[1..]), ','))
  {
    assert ',' !in p + tags[0];
    TrimPadded(p, tags[0]);
    SplitPaddedJoin(p, tags);
    TrimNonEmptyCons(p + tags[0], " " + Join(tags[1..]), tags[0]);
  }

  /** The last token of a padded join. */
  lemma ParseJoinLast(p: string, t: string)
    requires AllWhitespace(p) && ',' !in p && Clean(t)
    ensures TrimNonEmpty(Split(p + Join([t]), ',')) == [t]
  {
    assert ',' !in p + t;
    TrimPadded(p, t);
    SplitNoSep(p + t, ',');
    assert [p + t][0] == p + t && [p + t][1..] == [];
  }

  lemma {:induction false} ParseJoinPadded(p: string, tags: seq<string>)
    requires AllWhitespace(p) && ',' !in p
    requires |tags| >= 1 && forall i :: 0 <= i < |tags| ==> Clean(tags[i])
    ensures TrimNonEmpty(Split(p + Join(tags), ',')) == tags
    decreases |tags|
  {
    if |tags| == 1 {
      ParseJoinLast(p, tags[0]);
      assert tags == [tags[0]];
    } else {
      ParseJoinStep(p, tags);
      var more := tags[1..];
      assert forall i :: 0 <= i < |more| ==> more[i] == tags[i + 1];
      assert AllWhitespace(" ") && ',' !in " ";
      ParseJoinPadded(" ", more);
      assert tags == [tags[0]] + more;
    }
  }

  /**
   * Reading back a joined list of clean tokens gives the list itself:
   * parsing is a left inverse of joining with ", ".
   */
  lemma ParseJoin(tags: seq<string>)
    requires forall i :: 0 <= i < |tags| ==> Clean(tags[i])
    ensures ParseDataTags(Join(tags)) == tags
  {
    if |tags| == 0 {
      assert Split("", ',') == [""];
    } else {
      assert "" + Join(tags) == Join(tags);
      assert AllWhitespace("");
      ParseJoinPadded("", tags);
    }
  }
}
