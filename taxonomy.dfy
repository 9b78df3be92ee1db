/**
 * The canonical section taxonomy of the resume structurer and its heading
 * classifier (`app/services/resume/resume.py`, lines 8-81): the table of
 * canonical names and alias phrases, the alias-to-name index built from it,
 * the bullet-stripping line cleaner and the exact-then-fuzzy classifier.
 *
 * `difflib.get_close_matches(base, candidates, n=1, cutoff=0.8)` is a
 * parameter of type `Matcher`; all the model knows of it is that a match it
 * returns is one of the candidates it was given (`Chooses`).
 */
module Taxonomy {
  import opened Wrappers
  import opened Text

  //////////////////////////////////////////////////////////////////////////
  // The table (CANONICAL_SECTIONS), in its insertion order
  //////////////////////////////////////////////////////////////////////////

  const SummaryAliases: seq<string> :=
    ["summary", "profile", "professional summary", "profile summary", "objective", "about me", "career summary"]
  const SkillsAliases: seq<string> :=
    ["skills", "technical skills", "core competencies", "key skills", "technical expertise", "technologies", "tools",
     "tech stack"]
  const ExperienceAliases: seq<string> :=
    ["experience", "professional experience", "work experience", "employment history", "career history", "internships"]
  const ProjectsAliases: seq<string> :=
    ["projects", "personal projects", "academic projects", "relevant projects"]
  const EducationAliases: seq<string> :=
    ["education", "academic background", "academics", "qualifications"]
  const CertificationsAliases: seq<string> :=
    ["certifications", "licenses", "certificates", "courses", "training"]
  const AchievementsAliases: seq<string> :=
    ["achievements", "awards", "honors", "accomplishments"]
  const PublicationsAliases: seq<string> :=
    ["publications", "research", "papers", "articles"]
  const VolunteerAliases: seq<string> :=
    ["volunteer", "volunteer experience", "community service"]
  const LinksAliases: seq<string> :=
    ["links", "profiles", "online profiles", "social", "portfolio", "github", "linkedin", "website"]
  const ContactAliases: seq<string> :=
    ["contact", "contact information", "details", "personal info"]

  type Section = (string, seq<string>)

  const CanonicalSections: seq<Section> := [
    ("Summary", SummaryAliases),
    ("Skills", SkillsAliases),
    ("Experience", ExperienceAliases),
    ("Projects", ProjectsAliases),
    ("Education", EducationAliases),
    ("Certifications", CertificationsAliases),
    ("Achievements", AchievementsAliases),
    ("Publications", PublicationsAliases),
    ("Volunteer", VolunteerAliases),
    ("Links", LinksAliases),
    ("Contact", ContactAliases)
  ]

  /** The canonical names of a table, in order (`CANONICAL_SECTIONS.keys()`). */
  function Names(t: seq<Section>): (r: seq<string>)
    ensures |r| == |t| && forall i :: 0 <= i < |t| ==> r[i] == t[i].0
  {
    if t == [] then [] else Names(t[..|t| - 1]) + [t[|t| - 1].0]
  }

  /** Every alias of a table, section by section. */
  function Flatten(t: seq<Section>): (r: seq<string>)
    ensures forall i, k :: 0 <= i < |t| && 0 <= k < |t[i].1| ==> t[i].1[k] in r
    ensures forall a :: a in r ==> exists i :: 0 <= i < |t| && a in t[i].1
  {
    if t == [] then [] else Flatten(t[..|t| - 1]) + t[|t| - 1].1
  }

  /**
   * The dict comprehension `{alias: canon for canon, aliases in t for alias in aliases}`:
   * sections are inserted in order, so a later section would overwrite an earlier one's alias.
   */
  function AliasIndex(t: seq<Section>): map<string, string> {
    if t == [] then map[]
    else
      var last := t[|t| - 1];
      AliasIndex(t[..|t| - 1]) + map a | a in last.1 :: last.0
  }

  const CanonicalNames: seq<string> := Names(CanonicalSections)

  /** `ALL_ALIASES`. */
  const AllAliases: map<string, string> := AliasIndex(CanonicalSections)

  /** `ALL_ALIASES.keys()`, the candidates of the fuzzy alias match. */
  const AliasList: seq<string> := Flatten(CanonicalSections)

  /** `[c.lower() for c in CANONICAL_SECTIONS.keys()]`, the candidates of the fuzzy name match. */
  const LowerNames: seq<string> := seq(|CanonicalNames|, i requires 0 <= i < |CanonicalNames| => Lower(CanonicalNames[i]))

  //////////////////////////////////////////////////////////////////////////
  // The alias index, for any table
  //////////////////////////////////////////////////////////////////////////

  /** No alias of one listing occurs in another. */
  predicate Apart(x: seq<string>, y: seq<string>) {
    forall k, l :: 0 <= k < |x| && 0 <= l < |y| ==> x[k] != y[l]
  }

  /** No alias string is listed under two sections. */
  predicate Disjoint(t: seq<Section>) {
    forall i, j :: 0 <= i < j < |t| ==> Apart(t[i].1, t[j].1)
  }

  /** The index knows exactly the listed aliases, and maps each to some canonical name. */
  lemma {:induction false} AliasIndexDomain(t: seq<Section>)
    ensures forall a :: a in AliasIndex(t) <==> a in Flatten(t)
    ensures forall a :: a in AliasIndex(t) ==> AliasIndex(t)[a] in Names(t)
  {
    if t != [] {
      AliasIndexDomain(t[..|t| - 1]);
      assert Names(t) == Names(t[..|t| - 1]) + [t[|t| - 1].0];
    }
  }

  /** In a table whose sections share no alias, the index maps every alias to the section that lists it. */
  lemma {:induction false} AliasIndexOwner(t: seq<Section>, i: nat, a: string)
    requires Disjoint(t)
    requires i < |t| && a in t[i].1
    ensures a in AliasIndex(t) && AliasIndex(t)[a] == t[i].0
  {
    var n := |t| - 1;
    var front := t[..n];
    assert Disjoint(front) by {
      forall x, y | 0 <= x < y < |front| ensures Apart(front[x].1, front[y].1) {
        assert front[x] == t[x] && front[y] == t[y];
      }
    }
    if i < n {
      AliasIndexOwner(front, i, a);
      assert front[i] == t[i];
      assert a !in t[n].1 by {
        assert Apart(t[i].1, t[n].1);
      }
    }
  }

  //////////////////////////////////////////////////////////////////////////
  // Facts about the concrete table
  //////////////////////////////////////////////////////////////////////////

  lemma SummaryApart()
    ensures Apart(SummaryAliases, SkillsAliases) && Apart(SummaryAliases, ExperienceAliases)
    ensures Apart(SummaryAliases, ProjectsAliases) && Apart(SummaryAliases, EducationAliases)
    ensures Apart(SummaryAliases, CertificationsAliases) && Apart(SummaryAliases, AchievementsAliases)
    ensures Apart(SummaryAliases, PublicationsAliases) && Apart(SummaryAliases, VolunteerAliases)
    ensures Apart(SummaryAliases, LinksAliases) && Apart(SummaryAliases, ContactAliases)
  {
  }

  lemma SkillsApart()
    ensures Apart(SkillsAliases, ExperienceAliases) && Apart(SkillsAliases, ProjectsAliases)
    ensures Apart(SkillsAliases, EducationAliases) && Apart(SkillsAliases, CertificationsAliases)
    ensures Apart(SkillsAliases, AchievementsAliases) && Apart(SkillsAliases, PublicationsAliases)
    ensures Apart(SkillsAliases, VolunteerAliases) && Apart(SkillsAliases, LinksAliases)
    ensures Apart(SkillsAliases, ContactAliases)
  {
  }

  lemma ExperienceApart()
    ensures Apart(ExperienceAliases, ProjectsAliases) && Apart(ExperienceAliases, EducationAliases)
    ensures Apart(ExperienceAliases, CertificationsAliases) && Apart(ExperienceAliases, AchievementsAliases)
    ensures Apart(ExperienceAliases, PublicationsAliases) && Apart(ExperienceAliases, VolunteerAliases)
    ensures Apart(ExperienceAliases, LinksAliases) && Apart(ExperienceAliases, ContactAliases)
  {
  }

  lemma ProjectsApart()
    ensures Apart(ProjectsAliases, EducationAliases) && Apart(ProjectsAliases, CertificationsAliases)
    ensures Apart(ProjectsAliases, AchievementsAliases) && Apart(ProjectsAliases, PublicationsAliases)
    ensures Apart(ProjectsAliases, VolunteerAliases) && Apart(ProjectsAliases, LinksAliases)
    ensures Apart(ProjectsAliases, ContactAliases)
  {
  }

  lemma EducationApart()
    ensures Apart(EducationAliases, CertificationsAliases) && Apart(EducationAliases, AchievementsAliases)
    ensures Apart(EducationAliases, PublicationsAliases) && Apart(EducationAliases, VolunteerAliases)
    ensures Apart(EducationAliases, LinksAliases) && Apart(EducationAliases, ContactAliases)
  {
  }

  lemma CertificationsAchievementsApart()
    ensures Apart(CertificationsAliases, AchievementsAliases) && Apart(CertificationsAliases, PublicationsAliases)
    ensures Apart(CertificationsAliases, VolunteerAliases) && Apart(CertificationsAliases, LinksAliases)
    ensures Apart(CertificationsAliases, ContactAliases)
    ensures Apart(AchievementsAliases, PublicationsAliases) && Apart(AchievementsAliases, VolunteerAliases)
    ensures Apart(AchievementsAliases, LinksAliases) && Apart(AchievementsAliases, ContactAliases)
  {
  }

  lemma PublicationsOnwardApart()
    ensures Apart(PublicationsAliases, VolunteerAliases) && Apart(PublicationsAliases, LinksAliases)
    ensures Apart(PublicationsAliases, ContactAliases)
    ensures Apart(VolunteerAliases, LinksAliases) && Apart(VolunteerAliases, ContactAliases)
    ensures Apart(LinksAliases, ContactAliases)
  {
  }

  /** No alias string appears under two canonical sections. */
  lemma TaxonomyDisjoint()
    ensures Disjoint(CanonicalSections)
  {
    SummaryApart();
    SkillsApart();
    ExperienceApart();
    ProjectsApart();
    EducationApart();
    CertificationsAchievementsApart();
    PublicationsOnwardApart();
  }

  /** What every alias looks like: non-empty, no whitespace at the ends, no trailing colon, ... */
  predicate EdgesShaped(a: string) {
    a != [] && a[0] !in Whitespace && a[|a| - 1] !in Whitespace && a[|a| - 1] != ':'
  }

  /** ... and no upper-case letter. */
  predicate NoUpper(a: string) {
    forall k :: 0 <= k < |a| ==> !IsUpperChar(a[k])
  }

  predicate AliasShaped(a: string) {
    EdgesShaped(a) && NoUpper(a)
  }

  /** What every canonical name looks like: one capitalised ASCII word. */
  predicate NameShaped(c: string) {
    c != [] && IsUpperChar(c[0]) && forall k :: 1 <= k < |c| ==> IsLowerChar(c[k])
  }

  predicate AllShaped(xs: seq<string>) {
    (forall k :: 0 <= k < |xs| ==> EdgesShaped(xs[k])) && (forall k :: 0 <= k < |xs| ==> NoUpper(xs[k]))
  }

  lemma SummarySkillsEdges()
    ensures forall k :: 0 <= k < |SummaryAliases| ==> EdgesShaped(SummaryAliases[k])
    ensures forall k :: 0 <= k < |SkillsAliases| ==> EdgesShaped(SkillsAliases[k])
  {
  }

  lemma ExperienceProjectsEdges()
    ensures forall k :: 0 <= k < |ExperienceAliases| ==> EdgesShaped(ExperienceAliases[k])
    ensures forall k :: 0 <= k < |ProjectsAliases| ==> EdgesShaped(ProjectsAliases[k])
  {
  }

  lemma EducationCertificationsEdges()
    ensures forall k :: 0 <= k < |EducationAliases| ==> EdgesShaped(EducationAliases[k])
    ensures forall k :: 0 <= k < |CertificationsAliases| ==> EdgesShaped(CertificationsAliases[k])
  {
  }

  lemma AchievementsPublicationsEdges()
    ensures forall k :: 0 <= k < |AchievementsAliases| ==> EdgesShaped(AchievementsAliases[k])
    ensures forall k :: 0 <= k < |PublicationsAliases| ==> EdgesShaped(PublicationsAliases[k])
  {
  }

  lemma VolunteerLinksEdges()
    ensures forall k :: 0 <= k < |VolunteerAliases| ==> EdgesShaped(VolunteerAliases[k])
    ensures forall k :: 0 <= k < |LinksAliases| ==> EdgesShaped(LinksAliases[k])
  {
  }

  lemma ContactEdges()
    ensures forall k :: 0 <= k < |ContactAliases| ==> EdgesShaped(ContactAliases[k])
  {
  }

  lemma SummaryNoUpper()
    ensures forall k :: 0 <= k < |SummaryAliases| ==> NoUpper(SummaryAliases[k])
  {
  }

  lemma SkillsNoUpper()
    ensures forall k :: 0 <= k < |SkillsAliases| ==> NoUpper(SkillsAliases[k])
  {
  }

  lemma ExperienceNoUpper()
    ensures forall k :: 0 <= k < |ExperienceAliases| ==> NoUpper(ExperienceAliases[k])
  {
  }

  lemma ProjectsNoUpper()
    ensures forall k :: 0 <= k < |ProjectsAliases| ==> NoUpper(ProjectsAliases[k])
  {
  }

  lemma EducationNoUpper()
    ensures forall k :: 0 <= k < |EducationAliases| ==> NoUpper(EducationAliases[k])
  {
  }

  lemma CertificationsNoUpper()
    ensures forall k :: 0 <= k < |CertificationsAliases| ==> NoUpper(CertificationsAliases[k])
  {
  }

  lemma AchievementsNoUpper()
    ensures forall k :: 0 <= k < |AchievementsAliases| ==> NoUpper(AchievementsAliases[k])
  {
  }

  lemma PublicationsNoUpper()
    ensures forall k :: 0 <= k < |PublicationsAliases| ==> NoUpper(PublicationsAliases[k])
  {
  }

  lemma VolunteerNoUpper()
    ensures forall k :: 0 <= k < |VolunteerAliases| ==> NoUpper(VolunteerAliases[k])
  {
  }

  lemma LinksNoUpper()
    ensures forall k :: 0 <= k < |LinksAliases| ==> NoUpper(LinksAliases[k])
  {
  }

  lemma ContactNoUpper()
    ensures forall k :: 0 <= k < |ContactAliases| ==> NoUpper(ContactAliases[k])
  {
  }

  /** Every alias of the table is shaped as `AliasShaped` says, and every name as `NameShaped` says. */
  lemma TaxonomyShaped()
    ensures |CanonicalSections| == 11
    ensures forall i :: 0 <= i < 11 ==> AllShaped(CanonicalSections[i].1)
  {
    SummarySkillsEdges();
    ExperienceProjectsEdges();
    EducationCertificationsEdges();
    AchievementsPublicationsEdges();
    VolunteerLinksEdges();
    ContactEdges();
    SummaryNoUpper();
    SkillsNoUpper();
    ExperienceNoUpper();
    ProjectsNoUpper();
    EducationNoUpper();
    CertificationsNoUpper();
    AchievementsNoUpper();
    PublicationsNoUpper();
    VolunteerNoUpper();
    LinksNoUpper();
    ContactNoUpper();
  }

  lemma NamesShaped()
    ensures |CanonicalSections| == 11
    ensures forall i :: 0 <= i < 11 ==> NameShaped(CanonicalSections[i].0)
  {
  }

  lemma FirstNamesAreAliases()
    ensures Lower("Summary") == SummaryAliases[0] && Lower("Skills") == SkillsAliases[0]
    ensures Lower("Experience") == ExperienceAliases[0] && Lower("Projects") == ProjectsAliases[0]
    ensures Lower("Education") == EducationAliases[0]
  {
  }

  lemma LastNamesAreAliases()
    ensures Lower("Certifications") == CertificationsAliases[0] && Lower("Achievements") == AchievementsAliases[0]
    ensures Lower("Publications") == PublicationsAliases[0] && Lower("Volunteer") == VolunteerAliases[0]
    ensures Lower("Links") == LinksAliases[0] && Lower("Contact") == ContactAliases[0]
  {
  }

  /** Each canonical name, lower-cased, is itself one of that section's aliases. */
  lemma NamesAreAliases()
    ensures forall i :: 0 <= i < 11 ==> Lower(CanonicalSections[i].0) == CanonicalSections[i].1[0]
  {
    FirstNamesAreAliases();
    LastNamesAreAliases();
  }

  //////////////////////////////////////////////////////////////////////////
  // Line cleaning (_clean_line) and heading classification (_canonical_from_text)
  //////////////////////////////////////////////////////////////////////////

  /** The glyphs of `BULLET_PREFIX`: bullet, hyphen, en dash, em dash, asterisk, middle dot, `>`. */
  const Bullets: set<char> := {'\U{2022}', '-', '\U{2013}', '\U{2014}', '*', '\U{B7}', '>'}

  /** `_clean_line`: trim, drop one bullet glyph together with the whitespace after it, trim again. */
  function CleanLine(s: string): (r: string)
    ensures Trimmed(r)
    ensures var t := Strip(s);
      if |t| >= 2 && t[0] in Bullets && IsSpace(t[1]) then r == Strip(t[1..]) else r == t
    ensures r == [] <==> Strip(s) == []
  {
    var t := Strip(s);
    var u := if |t| >= 2 && t[0] in Bullets && IsSpace(t[1]) then StripLeft(t[1..], Whitespace) else t;
    assert |t| >= 2 && t[0] in Bullets && IsSpace(t[1]) ==> Strip(u) == Strip(t[1..]) by {
      if |t| >= 2 {
        StripLeftIdle(t[1..]);
      }
    }
    assert |t| >= 2 ==> Strip(t[1..]) != [] by {
      if |t| >= 2 {
        TrimmedTailKept(t);
      }
    }
    Strip(u)
  }

  /** A trimmed string of two or more characters still has a non-blank tail. */
  lemma TrimmedTailKept(t: string)
    requires |t| >= 2 && Trimmed(t)
    ensures Strip(t[1..]) != []
  {
    var c := t[|t| - 1];
    OutsideWhitespace(c);
    assert t[1..][|t[1..]| - 1] == c;
    StripKeepsLast(t[1..]);
  }

  /** Stripping what was already left-stripped changes nothing more than stripping at once. */
  lemma StripLeftIdle(s: string)
    ensures Strip(StripLeft(s, Whitespace)) == Strip(s)
  {
    var l := StripLeft(s, Whitespace);
    assert StripLeft(l, Whitespace) == l;
  }

  /** `text.strip().rstrip(":").lower()`. */
  function Normalize(text: string): string {
    Lower(StripRight(Strip(text), {':'}))
  }

  /** `difflib.get_close_matches(base, candidates, n=1, cutoff=0.8)`: at most one candidate. */
  type Matcher = (string, seq<string>) -> Option<string>

  /** A matcher only ever returns one of the candidates it was offered. */
  ghost predicate Chooses(m: Matcher) {
    forall base, candidates :: m(base, candidates).Some? ==> m(base, candidates).value in candidates
  }

  /** `_canonical_from_text`: exact alias, else closest alias, else closest canonical name, else nothing. */
  function Canonical(text: string, m: Matcher): (r: Option<string>)
    requires Chooses(m)
    ensures Normalize(text) == [] ==> r == None
    ensures r.Some? ==> r.value in CanonicalNames
  {
    var base := Normalize(text);
    AliasIndexDomain(CanonicalSections);
    if base == [] then None
    else if base in AllAliases then Some(AllAliases[base])
    else match m(base, AliasList)
      case Some(a) => Some(AllAliases[a])
      case None =>
        match m(base, LowerNames)
        case Some(c) => NamesRestored(); Some(Title(c))
        case None => None
  }

  lemma {:induction false} TitleOfLowerTail(s: string)
    requires forall k :: 0 <= k < |s| ==> IsLowerChar(s[k])
    ensures TitleFrom(s, true) == s
  {
    if s != [] {
      TitleOfLowerTail(s[1..]);
    }
  }

  /** Title-casing a lower-cased canonical name gives the name back. */
  lemma TitleOfLowerName(c: string)
    requires NameShaped(c)
    ensures Title(Lower(c)) == c
  {
    var l := Lower(c);
    TitleOfLowerTail(l[1..]);
    assert l[1..] == c[1..];
    assert [c[0]] + c[1..] == c;
  }

  /** The fuzzy name branch returns `.title()` of a lower-cased name, which is that canonical name. */
  lemma NamesRestored()
    ensures |LowerNames| == |CanonicalNames|
    ensures forall i :: 0 <= i < |LowerNames| ==> Title(LowerNames[i]) == CanonicalNames[i]
  {
    NamesShaped();
    forall i | 0 <= i < |LowerNames| ensures Title(LowerNames[i]) == CanonicalNames[i] {
      TitleOfLowerName(CanonicalNames[i]);
    }
  }

  //////////////////////////////////////////////////////////////////////////
  // What the classifier recognises
  //////////////////////////////////////////////////////////////////////////

  /** Upper-casing keeps the ends of a heading as they were and is undone by lower-casing. */
  lemma UpperKeepsEdges(s: string)
    requires EdgesShaped(s)
    ensures EdgesShaped(Upper(s)) && Lower(Upper(s)) == Lower(s)
  {
  }

  /** `rstrip(":")` removes exactly the colons appended to a line that does not end in one. */
  lemma {:induction false} StripRightColons(s: string, colons: string)
    requires s != [] && s[|s| - 1] != ':'
    requires forall k :: 0 <= k < |colons| ==> colons[k] == ':'
    ensures StripRight(s + colons, {':'}) == s
  {
    if colons == [] {
      assert s + colons == s;
    } else {
      var y := s + colons;
      assert y[..|y| - 1] == s + colons[..|colons| - 1];
      StripRightColons(s, colons[..|colons| - 1]);
    }
  }

  /** Normalising strips any run of trailing colons and lower-cases what is left. */
  lemma NormalizeDecorated(s: string, colons: string)
    requires EdgesShaped(s)
    requires forall k :: 0 <= k < |colons| ==> colons[k] == ':'
    ensures Normalize(s + colons) == Lower(s)
  {
    var y := s + colons;
    assert y[0] == s[0];
    assert y[|y| - 1] == if colons == [] then s[|s| - 1] else ':';
    StripOfTrimmed(y);
    StripRightColons(s, colons);
  }

  /** A line whose normal form is an alias of a section is classified as that section. */
  lemma AliasLookup(text: string, i: nat, m: Matcher)
    requires Chooses(m)
    requires i < |CanonicalSections| && Normalize(text) in CanonicalSections[i].1
    requires Normalize(text) != []
    ensures Canonical(text, m) == Some(CanonicalSections[i].0)
  {
    TaxonomyDisjoint();
    AliasIndexOwner(CanonicalSections, i, Normalize(text));
  }

  /**
   * Every alias of a section is classified as that section, written as it is
   * or in upper case, and with any number of trailing colons.
   */
  lemma AliasRecognised(i: nat, a: string, colons: string, m: Matcher)
    requires Chooses(m)
    requires i < |CanonicalSections| && a in CanonicalSections[i].1
    requires forall k :: 0 <= k < |colons| ==> colons[k] == ':'
    ensures Canonical(a, m) == Some(CanonicalSections[i].0)
    ensures Canonical(a + colons, m) == Some(CanonicalSections[i].0)
    ensures Canonical(Upper(a) + colons, m) == Some(CanonicalSections[i].0)
  {
    TaxonomyShaped();
    var k :| 0 <= k < |CanonicalSections[i].1| && CanonicalSections[i].1[k] == a;
    assert AliasShaped(a);
    assert Lower(a) == a;
    assert a + [] == a;
    NormalizeDecorated(a, []);
    NormalizeDecorated(a, colons);
    UpperKeepsEdges(a);
    NormalizeDecorated(Upper(a), colons);
    AliasLookup(a, i, m);
    AliasLookup(a + colons, i, m);
    AliasLookup(Upper(a) + colons, i, m);
  }

  /** Every canonical name is classified as itself, as written or upper-cased, with any trailing colons. */
  lemma NameRecognised(i: nat, colons: string, m: Matcher)
    requires Chooses(m)
    requires i < |CanonicalNames|
    requires forall k :: 0 <= k < |colons| ==> colons[k] == ':'
    ensures Canonical(CanonicalNames[i] + colons, m) == Some(CanonicalNames[i])
    ensures Canonical(Upper(CanonicalNames[i]) + colons, m) == Some(CanonicalNames[i])
  {
    var c := CanonicalNames[i];
    NameFacts(i);
    NormalizeDecorated(c, colons);
    UpperKeepsEdges(c);
    NormalizeDecorated(Upper(c), colons);
    AliasLookup(c + colons, i, m);
    AliasLookup(Upper(c) + colons, i, m);
  }

  lemma NameFacts(i: nat)
    requires i < |CanonicalNames|
    ensures EdgesShaped(CanonicalNames[i])
    ensures i < |CanonicalSections| && CanonicalNames[i] == CanonicalSections[i].0
    ensures Lower(CanonicalNames[i]) in CanonicalSections[i].1
  {
    NamesEdges();
    NamesAreAliases();
  }

  lemma NamesEdges()
    ensures |CanonicalSections| == 11
    ensures forall i :: 0 <= i < 11 ==> EdgesShaped(CanonicalSections[i].0)
  {
  }
}
