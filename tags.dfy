/**
 * The fixed tag vocabulary and the tag normaliser of the text grid:
 * a raw tag list is reduced to its canonical tags, first occurrences only,
 * in input order.
 */
module Tags {

  /** Display label of every canonical tag. */
  const Labels: map<string, string> := map[
    "engineering" := "Engineering",
    "fuehren-managen" := "F\U{00FC}hren & Managen",
    "mastery-lernen" := "Mastery & Lernen",
    "safety-risiko" := "Safety & Risiko",
    "skills-tools" := "Skills & Tools",
    "systemik" := "Systemdenken"
  ]

  /** The canonical vocabulary: exactly the keys of Labels. */
  const Canonical: set<string> := Labels.Keys

  /** The `tags` field of a record: an array of strings, or anything else. */
  datatype TagInput = TagList(items: seq<string>) | NotAList

  predicate NoDup(s: seq<string>) {
    forall i, j :: 0 <= i < j < |s| ==> s[i] != s[j]
  }

  predicate AllCanonical(s: seq<string>) {
    forall i :: 0 <= i < |s| ==> s[i] in Canonical
  }

  /**
   * The tags the normaliser keeps from `s`, defined prefix by prefix as its
   * loop visits them: the last tag is kept iff it is canonical and was not
   * kept before.
   */
  function Normalize(s: seq<string>): (r: seq<string>)
    ensures AllCanonical(r)
    ensures NoDup(r)
    ensures |r| <= |s|
    ensures forall t :: t in r <==> t in s && t in Canonical
  {
    if s == [] then []
    else
      var kept := Normalize(s[..|s| - 1]);
      var t := s[|s| - 1];
      assert forall u :: u in s <==> u in s[..|s| - 1] || u == t;
      if t in Canonical && t !in kept then kept + [t] else kept
  }

  /** What the normaliser returns for any `tags` field. */
  function NormalizeInput(tags: TagInput): seq<string> {
    match tags
    case NotAList => []
    case TagList(s) => Normalize(s)
  }

  /** The normaliser as the source runs it: one pass with a `seen` set. */
  method NormalizeTags(tags: TagInput) returns (out: seq<string>)
    ensures out == NormalizeInput(tags)
  {
    if tags.NotAList? {
      return [];
    }
    var s := tags.items;
    var seen: set<string> := {};
    out := [];
    var i := 0;
    while i < |s|
      invariant 0 <= i <= |s|
      invariant out == Normalize(s[..i])
      invariant forall t :: t in seen <==> t in out
    {
      var t := s[i];
      assert s[..i + 1][..i] == s[..i];
      if t in Canonical && t !in seen {
        seen := seen + {t};
        out := out + [t];
      }
      i := i + 1;
    }
    assert s[..|s|] == s;
  }

  /** Index of the first occurrence of `t` in `s`. */
  function FirstIndex(s: seq<string>, t: string): (k: nat)
    requires t in s
    ensures k < |s| && s[k] == t
    ensures forall j :: 0 <= j < k ==> s[j] != t
  {
    if s[0] == t then 0 else 1 + FirstIndex(s[1..], t)
  }

  lemma {:induction false} FirstIndexExtend(s: seq<string>, x: string, t: string)
    requires t in s
    ensures FirstIndex(s + [x], t) == FirstIndex(s, t)
  {
    if s[0] != t {
      assert (s + [x])[1..] == s[1..] + [x];
      FirstIndexExtend(s[1..], x, t);
    }
  }

  /**
   * The normaliser keeps the first-occurrence order of its input: a tag
   * that appears first earlier in the input comes earlier in the output.
   */
  lemma {:induction false} NormalizeKeepsFirstOccurrenceOrder(s: seq<string>)
    ensures forall i, j :: 0 <= i < j < |Normalize(s)| ==>
      FirstIndex(s, Normalize(s)[i]) < FirstIndex(s, Normalize(s)[j])
  {
    if s != [] {
      var p := s[..|s| - 1];
      var x := s[|s| - 1];
      assert s == p + [x];
      NormalizeKeepsFirstOccurrenceOrder(p);
      var kept := Normalize(p);
      forall u | u in kept
        ensures FirstIndex(s, u) == FirstIndex(p, u)
      {
        FirstIndexExtend(p, x, u);
      }
      if x in Canonical && x !in kept {
        assert x !in p;
        assert FirstIndex(s, x) == |p|;
      }
    }
  }

  /** A list that is already canonical and duplicate-free is left as it is. */
  lemma {:induction false} NormalizeFixesNormalized(s: seq<string>)
    requires AllCanonical(s) && NoDup(s)
    ensures Normalize(s) == s
  {
    if s != [] {
      var p := s[..|s| - 1];
      assert AllCanonical(p) && NoDup(p);
      NormalizeFixesNormalized(p);
      assert s[|s| - 1] !in p;
      assert s == p + [s[|s| - 1]];
    }
  }

  /** Normalising twice, as the load pipeline and the card generator do, equals normalising once. */
  lemma {:induction false} NormalizeIdempotent(s: seq<string>)
    ensures Normalize(Normalize(s)) == Normalize(s)
  {
    NormalizeFixesNormalized(Normalize(s));
  }
}
