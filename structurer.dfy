/**
 * `parse_resume_docx` in app/services/resume/resume.py: one walk over the
 * document's paragraphs that sorts each content line into the bucket of the
 * last recognised heading, followed by a case-insensitive de-duplication of
 * the skills.
 *
 * The walk is specified by `Walk`, a left fold of `Step` over the paragraph
 * texts that records every stored line with the section it was read under;
 * the buckets are the lines filed under each section.
 */
module Structurer {
  import opened Wrappers
  import opened Text
  import opened Taxonomy
  import opened Docx

  /** The dictionary the parser returns: the Summary text and the list buckets. */
  datatype ParsedResume = ParsedResume(summary: string, lists: map<string, seq<string>>)

  /** Every key of the result other than "Summary"; each starts as an empty list. */
  const ListBuckets: set<string> := {
    "Skills", "Experience", "Projects", "Education", "Certifications", "Achievements",
    "Publications", "Volunteer", "Links", "Contact", "Other"
  }

  /** The characters a Skills line is split at: the class `[,;/]`. */
  const SkillSeparators: set<char> := {',', ';', '/'}

  /** What one paragraph is to the walk. */
  datatype Kind =
    | Blank                    // nothing left after stripping (the cleaned-empty case cannot happen)
    | Heading(name: string)    // a recognised heading, with its canonical section name
    | Content(text: string)    // a content line, cleaned

  /** A stored content line and the section it was read under (None before the first heading). */
  datatype Line = Line(section: Option<string>, text: string)

  /** The walk's state: the current section and the lines stored so far. */
  datatype Walked = Walked(current: Option<string>, lines: seq<Line>)

  /** The section a list bucket collects: "Other" holds the lines read before any heading. */
  function BucketOf(k: string): Option<string> {
    if k == "Other" then None else Some(k)
  }

  /** Every canonical section other than Summary has a list bucket of its own. */
  lemma NameListed(c: string)
    requires c in CanonicalNames && c != "Summary"
    ensures c in ListBuckets && c != "Other"
  {
    assert CanonicalNames == ["Summary", "Skills", "Experience", "Projects", "Education", "Certifications",
      "Achievements", "Publications", "Volunteer", "Links", "Contact"];
  }

  lemma SummaryNotListed()
    ensures "Summary" !in ListBuckets
  {
  }

  //////////////////////////////////////////////////////////////////////////
  // The walk
  //////////////////////////////////////////////////////////////////////////

  /** A stripped, non-empty text: what cleaning leaves of a content line. */
  predicate CleanText(s: string) {
    s != [] && Trimmed(s)
  }

  /**
   * How the loop body treats a paragraph: a blank text is skipped, a text the
   * classifier maps to a section is a heading, and any other text is a content
   * line once cleaned, unless cleaning leaves nothing.
   */
  function Classify(para: string, m: Matcher): (k: Kind)
    requires Chooses(m)
    ensures k.Heading? ==> k.name in CanonicalNames && Canonical(Strip(para), m) == Some(k.name)
    ensures k.Content? ==> CleanText(k.text) && k.text == CleanLine(Strip(para)) && Canonical(Strip(para), m).None?
    ensures k.Blank? <==> Strip(para) == []
  {
    var text := Strip(para);
    if text == [] then Blank
    else match Canonical(text, m)
      case Some(c) => Heading(c)
      case None =>
        var cleaned := CleanLine(text);
        if cleaned == [] then Blank else Content(cleaned)
  }

  /** What the walk sees of the paragraph texts `paras`. */
  function Kinds(paras: seq<string>, m: Matcher): (r: seq<Kind>)
    requires Chooses(m)
    ensures |r| == |paras|
  {
    if paras == [] then [] else Kinds(paras[..|paras| - 1], m) + [Classify(paras[|paras| - 1], m)]
  }

  lemma KindsSnoc(ps: seq<Paragraph>, i: nat, m: Matcher)
    requires Chooses(m) && i < |ps|
    ensures Kinds(Texts(ps[..i + 1]), m) == Kinds(Texts(ps[..i]), m) + [Classify(ParagraphText(ps[i]), m)]
  {
    var t := Texts(ps[..i + 1]);
    assert t[..i] == Texts(ps[..i]);
  }

  /** The walk's effect of one paragraph. */
  function Step(w: Walked, k: Kind): Walked {
    match k
    case Blank => w
    case Heading(c) => Walked(Some(c), w.lines)
    case Content(t) => Walked(w.current, w.lines + [Line(w.current, t)])
  }

  /** The state after walking `kinds` from the start, with no current section. */
  function Walk(kinds: seq<Kind>): (w: Walked)
    ensures |w.lines| <= |kinds|
  {
    if kinds == [] then Walked(None, []) else Step(Walk(kinds[..|kinds| - 1]), kinds[|kinds| - 1])
  }

  lemma WalkSnoc(kinds: seq<Kind>, k: Kind)
    ensures Walk(kinds + [k]) == Step(Walk(kinds), k)
  {
    assert (kinds + [k])[..|kinds|] == kinds;
  }

  /** No section yet, or a canonical one. */
  predicate Filed(section: Option<string>) {
    section == None || section.value in CanonicalNames
  }

  predicate KindShaped(k: Kind) {
    (k.Heading? ==> k.name in CanonicalNames) && (k.Content? ==> CleanText(k.text))
  }

  predicate LineShaped(l: Line) {
    CleanText(l.text) && Filed(l.section)
  }

  /** Every stored line is a clean text filed under no section or a canonical one. */
  predicate WellFiled(w: Walked) {
    Filed(w.current) && forall i :: 0 <= i < |w.lines| ==> LineShaped(w.lines[i])
  }

  /** Walking classified paragraphs files clean lines under canonical sections only. */
  lemma {:induction false} WalkFiled(kinds: seq<Kind>)
    requires AllKindShaped(kinds)
    ensures WellFiled(Walk(kinds))
  {
    if kinds != [] {
      var p := kinds[..|kinds| - 1];
      assert AllKindShaped(p) by {
        forall i | 0 <= i < |p|
          ensures KindShaped(p[i])
        {
          assert p[i] == kinds[i];
        }
      }
      WalkFiled(p);
      assert KindShaped(kinds[|kinds| - 1]);
      StepShaped(Walk(kinds[..|kinds| - 1]), kinds[|kinds| - 1]);
    }
  }

  lemma StepShaped(w: Walked, k: Kind)
    requires WellFiled(w) && KindShaped(k)
    ensures WellFiled(Step(w, k))
  {
    if k.Content? {
      var l := Line(w.current, k.text);
      forall i | 0 <= i < |w.lines| + 1
        ensures LineShaped((w.lines + [l])[i])
      {
        if i < |w.lines| {
          assert (w.lines + [l])[i] == w.lines[i];
        }
      }
    }
  }

  predicate AllKindShaped(kinds: seq<Kind>) {
    forall i :: 0 <= i < |kinds| ==> KindShaped(kinds[i])
  }

  /** Classification names only canonical sections and yields only clean content lines. */
  lemma {:induction false} KindsShaped(paras: seq<string>, m: Matcher)
    requires Chooses(m)
    ensures AllKindShaped(Kinds(paras, m))
  {
    if paras != [] {
      var p := paras[..|paras| - 1];
      KindsShaped(p, m);
      var ks := Kinds(p, m);
      var k := Classify(paras[|paras| - 1], m);
      assert KindShaped(k);
      forall i | 0 <= i < |ks| + 1
        ensures KindShaped((ks + [k])[i])
      {
        if i < |ks| {
          assert (ks + [k])[i] == ks[i];
        }
      }
    }
  }

  /** The texts of the lines filed under `section`, in order. */
  function LinesUnder(lines: seq<Line>, section: Option<string>): (r: seq<string>)
    ensures |r| <= |lines|
    ensures (forall i :: 0 <= i < |lines| ==> LineShaped(lines[i])) ==>
      forall i :: 0 <= i < |r| ==> CleanText(r[i])
  {
    if lines == [] then []
    else
      var l := lines[|lines| - 1];
      LinesUnder(lines[..|lines| - 1], section) + (if l.section == section then [l.text] else [])
  }

  lemma LinesUnderSnoc(lines: seq<Line>, l: Line)
    ensures forall section ::
      LinesUnder(lines + [l], section) == LinesUnder(lines, section) + (if l.section == section then [l.text] else [])
  {
    assert (lines + [l])[..|lines|] == lines;
  }

  /** `[s.strip() for s in re.split(r"[,;/]", line) if s.strip()]`. */
  function SplitSkills(line: string): seq<string> {
    StrippedNonEmpty(SplitOn(line, SkillSeparators))
  }

  /** The Skills list before de-duplication: every Skills line split into its items. */
  function SkillsOf(lines: seq<string>): seq<string> {
    if lines == [] then []
    else SkillsOf(lines[..|lines| - 1]) + SplitSkills(lines[|lines| - 1])
  }

  //////////////////////////////////////////////////////////////////////////
  // De-duplication
  //////////////////////////////////////////////////////////////////////////

  /** The lower-cased forms of the strings in `s`. */
  function Keys(s: seq<string>): set<string> {
    set x | x in s :: Lower(x)
  }

  /** Keeps each string whose lower-cased form has not been kept before. */
  function Dedup(s: seq<string>): (r: seq<string>)
    ensures |r| <= |s|
    ensures forall i :: 0 <= i < |r| ==> r[i] in s
  {
    if s == [] then []
    else
      var d := Dedup(s[..|s| - 1]);
      var x := s[|s| - 1];
      if Lower(x) in Keys(d) then d else d + [x]
  }

  /** No string before index `j` has the same lower-cased form as `s[j]`. */
  predicate FirstOfItsKey(s: seq<string>, j: int)
    requires 0 <= j < |s|
  {
    forall k :: 0 <= k < j ==> Lower(s[k]) != Lower(s[j])
  }

  /** An independent description: the strings of `s` that are the first of their lower-cased form. */
  function FirstOccurrences(s: seq<string>): seq<string> {
    if s == [] then []
    else FirstOccurrences(s[..|s| - 1]) + (if FirstOfItsKey(s, |s| - 1) then [s[|s| - 1]] else [])
  }

  /** De-duplication keeps every lower-cased form that occurs. */
  lemma {:induction false} DedupKeys(s: seq<string>)
    ensures Keys(Dedup(s)) == Keys(s)
  {
    if s != [] {
      var p := s[..|s| - 1];
      DedupKeys(p);
      var d := Dedup(p);
      var x := s[|s| - 1];
      assert s == p + [x];
      assert Keys(s) == Keys(p) + {Lower(x)};
      assert Keys(d + [x]) == Keys(d) + {Lower(x)};
    }
  }

  /** De-duplication keeps exactly the first string of each lower-cased form, in order and as written. */
  lemma {:induction false} DedupIsFirstOccurrences(s: seq<string>)
    ensures Dedup(s) == FirstOccurrences(s)
  {
    if s != [] {
      var p := s[..|s| - 1];
      var x := s[|s| - 1];
      DedupIsFirstOccurrences(p);
      DedupKeys(p);
      if Lower(x) in Keys(p) {
        var y :| y in p && Lower(y) == Lower(x);
        var k :| 0 <= k < |p| && p[k] == y;
        assert s[k] == y;
        assert !FirstOfItsKey(s, |s| - 1);
      } else {
        forall k | 0 <= k < |s| - 1
          ensures Lower(s[k]) != Lower(x)
        {
          assert s[k] == p[k] && p[k] in p;
        }
      }
    }
  }

  /** No two strings of `r` are equal once lower-cased. */
  predicate CaseDistinct(r: seq<string>) {
    forall i, j :: 0 <= i < j < |r| ==> Lower(r[i]) != Lower(r[j])
  }

  /** No two kept strings are equal once lower-cased. */
  lemma {:induction false} DedupDistinct(s: seq<string>)
    ensures CaseDistinct(Dedup(s))
  {
    if s != [] {
      var p := s[..|s| - 1];
      DedupDistinct(p);
      var d := Dedup(p);
      var x := s[|s| - 1];
      if Lower(x) in Keys(d) {
        assert Dedup(s) == d;
      } else {
        var r := d + [x];
        assert Dedup(s) == r;
        forall i, j | 0 <= i < j < |r|
          ensures Lower(r[i]) != Lower(r[j])
        {
          if j == |d| {
            assert r[i] == d[i] && d[i] in d;
            assert Lower(d[i]) in Keys(d);
          } else {
            assert r[i] == d[i] && r[j] == d[j];
            assert CaseDistinct(d);
          }
        }
      }
    }
  }

  /** A list without case-insensitive repeats is left as it is. */
  lemma {:induction false} DedupIdle(s: seq<string>)
    requires CaseDistinct(s)
    ensures Dedup(s) == s
  {
    if s != [] {
      var p := s[..|s| - 1];
      assert CaseDistinct(p) by {
        forall i, j | 0 <= i < j < |p|
          ensures Lower(p[i]) != Lower(p[j])
        {
          assert p[i] == s[i] && p[j] == s[j];
        }
      }
      DedupIdle(p);
      var x := s[|s| - 1];
      forall y | y in p
        ensures Lower(y) != Lower(x)
      {
        var k :| 0 <= k < |p| && p[k] == y;
        assert s[k] == y;
      }
      assert Lower(x) !in Keys(p);
      assert s == p + [x];
    }
  }

  //////////////////////////////////////////////////////////////////////////
  // Summary text
  //////////////////////////////////////////////////////////////////////////

  /** Non-empty stripped parts joined by spaces give a non-empty stripped text. */
  lemma {:induction false} JoinTrimmed(parts: seq<string>)
    requires parts != []
    requires forall i :: 0 <= i < |parts| ==> CleanText(parts[i])
    ensures CleanText(Join(parts, " "))
  {
    if |parts| > 1 {
      JoinTrimmed(parts[1..]);
    }
  }

  lemma StripAfterSpace(x: string)
    requires CleanText(x)
    ensures Strip(" " + x) == x
  {
    var s := " " + x;
    assert s[1..] == x;
    assert StripLeft(x, Whitespace) == x;
    assert StripLeft(s, Whitespace) == x;
  }

  /** `(summary + " " + cleaned).strip()` extends the space-joined Summary lines by one line. */
  lemma {:induction false} SummaryAppend(parts: seq<string>, x: string)
    requires forall i :: 0 <= i < |parts| ==> CleanText(parts[i])
    requires CleanText(x)
    ensures Strip(Join(parts, " ") + " " + x) == Join(parts + [x], " ")
  {
    if parts == [] {
      assert [] + [x] == [x];
      StripAfterSpace(x);
    } else {
      JoinTrimmed(parts);
      JoinSnoc(parts, x, " ");
      var t := Join(parts, " ") + " " + x;
      assert t[0] == Join(parts, " ")[0] && t[|t| - 1] == x[|x| - 1];
      StripOfTrimmed(t);
    }
  }

  //////////////////////////////////////////////////////////////////////////
  // The parser
  //////////////////////////////////////////////////////////////////////////

  /** The Summary text of a walk state: its Summary lines joined by spaces. */
  function SummaryOf(w: Walked): string {
    Join(LinesUnder(w.lines, Some("Summary")), " ")
  }

  /** What list bucket `k` holds in a walk state, before the skills are de-duplicated. */
  function BucketLines(w: Walked, k: string): seq<string> {
    if k == "Skills" then SkillsOf(LinesUnder(w.lines, Some("Skills"))) else LinesUnder(w.lines, BucketOf(k))
  }

  /** `lists` holds exactly the list buckets of the walk state `w`. */
  predicate BucketsHold(w: Walked, lists: map<string, seq<string>>) {
    lists.Keys == ListBuckets && forall k :: k in ListBuckets ==> lists[k] == BucketLines(w, k)
  }

  /** The bucket a content line goes to when the current section is not Summary. */
  function BucketFor(current: Option<string>): string {
    if current == None then "Other" else current.value
  }

  lemma SkillsOfSnoc(lines: seq<string>, x: string)
    ensures SkillsOf(lines + [x]) == SkillsOf(lines) + SplitSkills(x)
  {
    assert (lines + [x])[..|lines|] == lines;
  }

  /** What a content line outside Summary adds to bucket `k`: its skill items, itself, or nothing. */
  lemma BucketAfterContent(w: Walked, t: string, k: string)
    requires Filed(w.current) && w.current != Some("Summary")
    ensures var key := BucketFor(w.current);
      BucketLines(Step(w, Content(t)), k) ==
        BucketLines(w, k) + (if k != key then [] else if k == "Skills" then SplitSkills(t) else [t])
  {
    var key := BucketFor(w.current);
    if w.current.Some? {
      NameListed(key);
    }
    var l := Line(w.current, t);
    LinesUnderSnoc(w.lines, l);
    var w' := Step(w, Content(t));
    assert w'.lines == w.lines + [l];
    if k == "Skills" {
      if key == "Skills" {
        assert LinesUnder(w'.lines, Some("Skills")) == LinesUnder(w.lines, Some("Skills")) + [t];
        SkillsOfSnoc(LinesUnder(w.lines, Some("Skills")), t);
      } else {
        assert LinesUnder(w'.lines, Some("Skills")) == LinesUnder(w.lines, Some("Skills"));
      }
    } else if k == key {
      assert BucketOf(k) == w.current;
    } else {
      assert BucketOf(k) != w.current;
    }
  }

  /** A content line outside Summary extends one bucket, by its skill items or by the line itself. */
  lemma ContentBuckets(w: Walked, t: string, lists: map<string, seq<string>>)
    requires WellFiled(w) && w.current != Some("Summary") && BucketsHold(w, lists)
    ensures var key := BucketFor(w.current);
      && key in ListBuckets
      && BucketsHold(Step(w, Content(t)), lists[key := lists[key] + (if key == "Skills" then SplitSkills(t) else [t])])
      && SummaryOf(Step(w, Content(t))) == SummaryOf(w)
  {
    var key := BucketFor(w.current);
    if w.current.Some? {
      NameListed(key);
    }
    var lists' := lists[key := lists[key] + (if key == "Skills" then SplitSkills(t) else [t])];
    assert key in lists.Keys;
    assert lists'.Keys == lists.Keys;
    forall k | k in ListBuckets
      ensures lists'[k] == BucketLines(Step(w, Content(t)), k)
    {
      BucketAfterContent(w, t, k);
    }
    ContentKeepsSummary(w, t);
  }

  lemma ContentKeepsSummary(w: Walked, t: string)
    requires w.current != Some("Summary")
    ensures SummaryOf(Step(w, Content(t))) == SummaryOf(w)
  {
    var l := Line(w.current, t);
    LinesUnderSnoc(w.lines, l);
    assert Step(w, Content(t)).lines == w.lines + [l];
    assert LinesUnder(w.lines + [l], Some("Summary")) == LinesUnder(w.lines, Some("Summary"));
  }

  /** A content line under Summary extends the Summary text and no bucket. */
  lemma SummaryContent(w: Walked, t: string, lists: map<string, seq<string>>)
    requires WellFiled(w) && w.current == Some("Summary") && CleanText(t) && BucketsHold(w, lists)
    ensures BucketsHold(Step(w, Content(t)), lists)
    ensures SummaryOf(Step(w, Content(t))) == Strip(SummaryOf(w) + " " + t)
  {
    SummaryNotListed();
    var l := Line(w.current, t);
    LinesUnderSnoc(w.lines, l);
    var w' := Step(w, Content(t));
    assert w'.lines == w.lines + [l];
    forall k | k in ListBuckets
      ensures lists[k] == BucketLines(w', k)
    {
      assert k != "Summary";
      assert LinesUnder(w'.lines, BucketOf(k)) == LinesUnder(w.lines, BucketOf(k));
      assert LinesUnder(w'.lines, Some("Skills")) == LinesUnder(w.lines, Some("Skills"));
    }
    var parts := LinesUnder(w.lines, Some("Summary"));
    assert LinesUnder(w'.lines, Some("Summary")) == parts + [t];
    SummaryAppend(parts, t);
  }

  /** A heading or a blank paragraph stores no line: the Summary text and the buckets stay. */
  lemma SameLines(w: Walked, w': Walked, lists: map<string, seq<string>>)
    requires w.lines == w'.lines && BucketsHold(w, lists)
    ensures BucketsHold(w', lists) && SummaryOf(w') == SummaryOf(w)
  {
    forall k | k in ListBuckets
      ensures lists[k] == BucketLines(w', k)
    {
      assert BucketLines(w, k) == BucketLines(w', k);
    }
  }

  /**
   * The loop's handling of a cleaned content line: appended to "Other" before
   * any heading, added to the Summary text, split into skill items under
   * Skills, and appended to its own bucket under any other section.
   */
  method FileLine(ghost w: Walked, current: Option<string>, cleaned: string,
                  summary: string, lists: map<string, seq<string>>)
    returns (summary': string, lists': map<string, seq<string>>)
    requires WellFiled(w) && current == w.current && CleanText(cleaned)
    requires summary == SummaryOf(w) && BucketsHold(w, lists)
    ensures summary' == SummaryOf(Step(w, Content(cleaned)))
    ensures BucketsHold(Step(w, Content(cleaned)), lists')
  {
    summary', lists' := summary, lists;
    if current == Some("Summary") {
      SummaryContent(w, cleaned, lists);
    } else {
      ContentBuckets(w, cleaned, lists);
    }
    if current == None {
      lists' := lists["Other" := lists["Other"] + [cleaned]];
    } else if current == Some("Summary") {
      summary' := Strip(summary + " " + cleaned);
    } else if current == Some("Skills") {
      lists' := lists["Skills" := lists["Skills"] + SplitSkills(cleaned)];
    } else {
      var c := current.value;
      lists' := lists[c := lists[c] + [cleaned]];
    }
  }

  /** What the finished buckets hold, once the skills are replaced by their de-duplicated list. */
  lemma FinalBuckets(w: Walked, lists: map<string, seq<string>>)
    requires BucketsHold(w, lists)
    ensures var r := lists["Skills" := Dedup(lists["Skills"])];
      && r.Keys == ListBuckets
      && (forall k :: k in ListBuckets && k != "Skills" ==> r[k] == LinesUnder(w.lines, BucketOf(k)))
      && r["Skills"] == Dedup(SkillsOf(LinesUnder(w.lines, Some("Skills"))))
  {
    assert "Skills" in ListBuckets;
    var r := lists["Skills" := Dedup(lists["Skills"])];
    assert r.Keys == lists.Keys;
    forall k | k in ListBuckets && k != "Skills"
      ensures r[k] == LinesUnder(w.lines, BucketOf(k))
    {
      assert r[k] == lists[k] == BucketLines(w, k);
    }
  }

  /**
   * The loop body for one paragraph: a blank text is skipped, a heading
   * becomes the current section, and a content line is filed.
   */
  method ReadParagraph(ghost w: Walked, para: Paragraph, m: Matcher, current: Option<string>,
                       summary: string, lists: map<string, seq<string>>)
    returns (current': Option<string>, summary': string, lists': map<string, seq<string>>)
    requires Chooses(m) && WellFiled(w) && current == w.current
    requires summary == SummaryOf(w) && BucketsHold(w, lists)
    ensures var w' := Step(w, Classify(ParagraphText(para), m));
      WellFiled(w') && current' == w'.current && summary' == SummaryOf(w') && BucketsHold(w', lists')
  {
    var kind := Classify(ParagraphText(para), m);
    StepShaped(w, kind);
    current', summary', lists' := current, summary, lists;
    match kind
    case Blank =>
    case Heading(c) =>
      SameLines(w, Step(w, kind), lists);
      current' := Some(c);
    case Content(cleaned) =>
      summary', lists' := FileLine(w, current, cleaned, summary, lists);
  }

  /**
   * One pass over the paragraphs filling the buckets, then the skills
   * de-duplication: Summary is the Summary lines joined by spaces, "Other"
   * holds the lines read before any recognised heading, Skills the items of
   * the Skills lines with case-insensitive repeats removed, and every other
   * bucket the lines of its section.
   */
  method ParseResume(paragraphs: seq<Paragraph>, m: Matcher) returns (r: ParsedResume)
    requires Chooses(m)
    ensures var w := Walk(Kinds(Texts(paragraphs), m));
      && r.summary == SummaryOf(w)
      && r.lists.Keys == ListBuckets
      && (forall k :: k in ListBuckets && k != "Skills" ==> r.lists[k] == LinesUnder(w.lines, BucketOf(k)))
      && r.lists["Skills"] == Dedup(SkillsOf(LinesUnder(w.lines, Some("Skills"))))
  {
    ghost var w := Walked(None, []);
    var current: Option<string> := None;
    var summary := "";
    var lists: map<string, seq<string>> := map k | k in ListBuckets :: [];
    assert BucketsHold(w, lists);
    var i := 0;
    while i < |paragraphs|
      invariant 0 <= i <= |paragraphs|
      invariant w == Walk(Kinds(Texts(paragraphs[..i]), m)) && current == w.current && WellFiled(w)
      invariant summary == SummaryOf(w) && BucketsHold(w, lists)
    {
      current, summary, lists := ReadParagraph(w, paragraphs[i], m, current, summary, lists);
      ghost var kind := Classify(ParagraphText(paragraphs[i]), m);
      KindsSnoc(paragraphs, i, m);
      WalkSnoc(Kinds(Texts(paragraphs[..i]), m), kind);
      w := Step(w, kind);
      i := i + 1;
    }
    assert paragraphs[..i] == paragraphs;
    FinalBuckets(w, lists);
    var uniqueSkills := DedupSkills(lists["Skills"]);
    r := ParsedResume(summary, lists["Skills" := uniqueSkills]);
  }

  /** The de-duplication loop: a skill is kept when its lower-cased form has not been seen. */
  method DedupSkills(skills: seq<string>) returns (unique: seq<string>)
    ensures unique == Dedup(skills)
  {
    var seen: set<string> := {};
    unique := [];
    var j := 0;
    while j < |skills|
      invariant 0 <= j <= |skills|
      invariant unique == Dedup(skills[..j])
      invariant seen == Keys(unique)
    {
      assert skills[..j + 1][..j] == skills[..j];
      var key := Lower(skills[j]);
      if key !in seen {
        seen := seen + {key};
        unique := unique + [skills[j]];
      }
      j := j + 1;
    }
    assert skills[..j] == skills;
  }

  //////////////////////////////////////////////////////////////////////////
  // What the buckets hold
  //////////////////////////////////////////////////////////////////////////

  /** The line a paragraph contributes wherever it stands: none for blanks and headings. */
  function ContentOf(k: Kind): seq<string> {
    if k.Content? then [k.text] else []
  }

  /** The content lines of `kinds`, ignoring where the headings stand. */
  function ContentLines(kinds: seq<Kind>): seq<string> {
    if kinds == [] then [] else ContentLines(kinds[..|kinds| - 1]) + ContentOf(kinds[|kinds| - 1])
  }

  /** The texts of some lines. */
  function TextsOf(lines: seq<Line>): (r: seq<string>)
    ensures |r| == |lines| && forall i :: 0 <= i < |lines| ==> r[i] == lines[i].text
  {
    seq(|lines|, i requires 0 <= i < |lines| => lines[i].text)
  }

  /** Every content paragraph is stored once, in document order, and no heading is stored. */
  lemma {:induction false} WalkStoresContent(kinds: seq<Kind>)
    ensures TextsOf(Walk(kinds).lines) == ContentLines(kinds)
  {
    if kinds != [] {
      var p := kinds[..|kinds| - 1];
      WalkStoresContent(p);
      var w := Walk(p);
      var k := kinds[|kinds| - 1];
      if k.Content? {
        var l := Line(w.current, k.text);
        assert TextsOf(w.lines + [l]) == TextsOf(w.lines) + [k.text];
      }
    }
  }

  /** A state with a current section keeps one and files no further line under None. */
  lemma {:induction false} NothingMoreForOther(pre: seq<Kind>, rest: seq<Kind>)
    requires Walk(pre).current.Some?
    ensures Walk(pre + rest).current.Some?
    ensures LinesUnder(Walk(pre + rest).lines, None) == LinesUnder(Walk(pre).lines, None)
  {
    if rest == [] {
      assert pre + rest == pre;
    } else {
      var rs := rest[..|rest| - 1];
      assert (pre + rest)[..|pre + rest| - 1] == pre + rs;
      NothingMoreForOther(pre, rs);
      var w := Walk(pre + rs);
      var k := rest[|rest| - 1];
      assert (pre + rest)[|pre + rest| - 1] == k;
      assert Walk(pre + rest) == Step(w, k);
      if k.Content? {
        LinesUnderSnoc(w.lines, Line(w.current, k.text));
      }
    }
  }

  /** Before the first heading the current section is None and every content line goes to "Other". */
  lemma {:induction false} PreambleIsOther(kinds: seq<Kind>)
    requires forall i :: 0 <= i < |kinds| ==> !kinds[i].Heading?
    ensures Walk(kinds).current == None
    ensures LinesUnder(Walk(kinds).lines, None) == ContentLines(kinds)
  {
    if kinds != [] {
      var p := kinds[..|kinds| - 1];
      PreambleIsOther(p);
      var w := Walk(p);
      var k := kinds[|kinds| - 1];
      if k.Content? {
        LinesUnderSnoc(w.lines, Line(w.current, k.text));
      }
    }
  }

  /**
   * "Other" holds exactly the content read before the first recognised
   * heading: nothing after a heading ever goes there.
   */
  lemma OtherIsPreamble(pre: seq<Kind>, heading: Kind, rest: seq<Kind>)
    requires forall i :: 0 <= i < |pre| ==> !pre[i].Heading?
    requires heading.Heading?
    ensures LinesUnder(Walk(pre + [heading] + rest).lines, None) == ContentLines(pre)
  {
    PreambleIsOther(pre);
    var ph := pre + [heading];
    assert ph[..|ph| - 1] == pre;
    NothingMoreForOther(ph, rest);
  }

  lemma AppendAssoc(a: seq<string>, b: seq<string>, c: seq<string>)
    ensures a + (b + c) == a + b + c
  {
  }

  /** The lines of a section are the content lines after its heading, up to the next heading. */
  lemma {:induction false} SectionAfterHeading(pre: seq<Kind>, name: string, body: seq<Kind>)
    requires forall i :: 0 <= i < |body| ==> !body[i].Heading?
    ensures Walk(pre + [Heading(name)] + body).current == Some(name)
    ensures LinesUnder(Walk(pre + [Heading(name)] + body).lines, Some(name)) ==
      LinesUnder(Walk(pre).lines, Some(name)) + ContentLines(body)
  {
    var ph := pre + [Heading(name)];
    if body == [] {
      assert ph + body == ph;
      WalkSnoc(pre, Heading(name));
      assert ContentLines(body) == [];
    } else {
      var b := body[..|body| - 1];
      var k := body[|body| - 1];
      assert ph + body == (ph + b) + [k];
      SectionAfterHeading(pre, name, b);
      var w := Walk(ph + b);
      WalkSnoc(ph + b, k);
      assert ContentLines(body) == ContentLines(b) + ContentOf(k);
      var before := LinesUnder(Walk(pre).lines, Some(name));
      if k.Content? {
        LinesUnderSnoc(w.lines, Line(w.current, k.text));
        assert LinesUnder(Step(w, k).lines, Some(name)) == before + ContentLines(b) + [k.text];
        AppendAssoc(before, ContentLines(b), [k.text]);
      } else {
        assert Step(w, k) == w;
        assert ContentLines(body) == ContentLines(b);
      }
    }
  }

  /** The Summary text has no surrounding whitespace, and is empty exactly when no Summary line was read. */
  lemma SummaryShape(paras: seq<string>, m: Matcher)
    requires Chooses(m)
    ensures var parts := LinesUnder(Walk(Kinds(paras, m)).lines, Some("Summary"));
      var s := Join(parts, " ");
      Trimmed(s) && (s == [] <==> parts == [])
  {
    KindsShaped(paras, m);
    WalkFiled(Kinds(paras, m));
    var parts := LinesUnder(Walk(Kinds(paras, m)).lines, Some("Summary"));
    if parts != [] {
      JoinTrimmed(parts);
    }
  }

  /** `s` has no character of `cs`. */
  predicate FreeOf(s: string, cs: set<char>) {
    forall j :: 0 <= j < |s| ==> s[j] !in cs
  }

  predicate AllFree(parts: seq<string>, cs: set<char>) {
    forall i :: 0 <= i < |parts| ==> FreeOf(parts[i], cs)
  }

  lemma AllFreeConcat(a: seq<string>, b: seq<string>, cs: set<char>)
    requires AllFree(a, cs) && AllFree(b, cs)
    ensures AllFree(a + b, cs)
  {
    forall i | 0 <= i < |a + b|
      ensures FreeOf((a + b)[i], cs)
    {
      if i < |a| {
        assert (a + b)[i] == a[i];
      } else {
        assert (a + b)[i] == b[i - |a|];
      }
    }
  }

  /** A string with no character of `cs` keeps none after stripping. */
  lemma StripFree(s: string, cs: set<char>)
    requires FreeOf(s, cs)
    ensures FreeOf(Strip(s), cs)
  {
    var k := StripOffset(s);
    var t := Strip(s);
    forall j | 0 <= j < |t|
      ensures t[j] !in cs
    {
      assert t[j] == s[k + j];
    }
  }

  lemma {:induction false} StrippedFree(parts: seq<string>, cs: set<char>)
    requires AllFree(parts, cs)
    ensures AllFree(StrippedNonEmpty(parts), cs)
  {
    if parts != [] {
      assert FreeOf(parts[0], cs);
      StripFree(parts[0], cs);
      assert AllFree(parts[1..], cs);
      StrippedFree(parts[1..], cs);
      var head := Strip(parts[0]);
      var h := if head == [] then [] else [head];
      assert AllFree(h, cs);
      AllFreeConcat(h, StrippedNonEmpty(parts[1..]), cs);
    }
  }

  /** A well-formed skill: non-empty, stripped and free of separators. */
  predicate SkillShaped(s: string) {
    CleanText(s) && FreeOf(s, SkillSeparators)
  }

  predicate AllSkillShaped(xs: seq<string>) {
    forall i :: 0 <= i < |xs| ==> SkillShaped(xs[i])
  }

  lemma SplitSkillsShaped(line: string)
    ensures AllSkillShaped(SplitSkills(line))
  {
    var parts := SplitOn(line, SkillSeparators);
    assert AllFree(parts, SkillSeparators);
    StrippedFree(parts, SkillSeparators);
    var r := SplitSkills(line);
    assert AllFree(r, SkillSeparators);
    forall i | 0 <= i < |r|
      ensures SkillShaped(r[i])
    {
      assert FreeOf(r[i], SkillSeparators);
    }
  }

  lemma {:induction false} SkillsOfShaped(lines: seq<string>)
    ensures AllSkillShaped(SkillsOf(lines))
  {
    if lines != [] {
      var p := lines[..|lines| - 1];
      SkillsOfShaped(p);
      SplitSkillsShaped(lines[|lines| - 1]);
      var a := SkillsOf(p);
      var b := SplitSkills(lines[|lines| - 1]);
      forall i | 0 <= i < |a| + |b|
        ensures SkillShaped((a + b)[i])
      {
        if i < |a| {
          assert (a + b)[i] == a[i];
        } else {
          assert (a + b)[i] == b[i - |a|];
        }
      }
    }
  }

  /** Every final skill is a well-formed item, and no two differ only in case. */
  lemma SkillsShaped(lines: seq<string>)
    ensures var r := Dedup(SkillsOf(lines));
      AllSkillShaped(r) && CaseDistinct(r)
  {
    var s := SkillsOf(lines);
    SkillsOfShaped(lines);
    DedupDistinct(s);
    var r := Dedup(s);
    forall i | 0 <= i < |r|
      ensures SkillShaped(r[i])
    {
      var k :| 0 <= k < |s| && s[k] == r[i];
      assert SkillShaped(s[k]);
    }
  }
}
