/**
 * app/services/resume/parser.py: a sentence splitter, and a rule-based
 * structurer that treats all-capitals or colon-terminated lines as headings
 * and files the sentences of the other lines under the last heading seen.
 */
module Parser {
  import opened Wrappers
  import opened Text
  import opened Docx

  //////////////////////////////////////////////////////////////////////////
  // split_into_sentences
  //////////////////////////////////////////////////////////////////////////

  /** The characters the splitter's look-behind accepts. */
  const Terminals: set<char> := {'.', '!', '?'}

  /** The regex `(?<=[.!?])\s+` can start a match at index `p` of `s`. */
  predicate IsBreak(s: string, p: int) {
    1 <= p < |s| && s[p - 1] in Terminals && s[p] in Whitespace
  }

  /** No terminal character followed by whitespace inside `s`. */
  predicate NoBreak(s: string) {
    forall p :: 1 <= p < |s| ==> !IsBreak(s, p)
  }

  /** `s` is non-empty and its last character is `.`, `!` or `?`. */
  predicate Terminated(s: string) {
    s != [] && s[|s| - 1] in Terminals
  }

  /** The first index from `i` on at which a match starts, or `|s|` when there is none. */
  function FirstBreak(s: string, i: nat): (p: nat)
    requires i <= |s|
    ensures i <= p <= |s|
    ensures p < |s| ==> IsBreak(s, p)
    ensures forall j :: i <= j < p ==> !IsBreak(s, j)
    decreases |s| - i
  {
    if i == |s| then |s| else if IsBreak(s, i) then i else FirstBreak(s, i + 1)
  }

  /**
   * `re.split(r'(?<=[.!?])\s+', s)`: the pieces between the matches, where a
   * match is a maximal run of whitespace right after a terminal character.
   */
  function Fragments(s: string): (r: seq<string>)
    ensures |r| >= 1
    decreases |s|
  {
    var p := FirstBreak(s, 0);
    if p == |s| then [s]
    else
      var rest := StripLeft(s[p..], Whitespace);
      [s[..p]] + Fragments(rest)
  }

  /** `split_into_sentences(text)`: the stripped pieces that are not empty. */
  function Sentences(text: string): (r: seq<string>)
    ensures forall i :: 0 <= i < |r| ==> r[i] != [] && Trimmed(r[i])
  {
    StrippedNonEmpty(Fragments(text))
  }

  lemma SentencesOfEmpty()
    ensures Sentences("") == []
  {
    assert FirstBreak("", 0) == 0;
    assert Fragments("") == [""];
  }

  predicate AllNoBreak(ss: seq<string>) {
    forall i :: 0 <= i < |ss| ==> NoBreak(ss[i])
  }

  /** Every piece but possibly the last is terminated. */
  predicate TerminatedButLast(ss: seq<string>) {
    forall i :: 0 <= i < |ss| - 1 ==> Terminated(ss[i])
  }

  lemma {:induction false} FragmentsShape(s: string)
    ensures AllNoBreak(Fragments(s)) && TerminatedButLast(Fragments(s))
    decreases |s|
  {
    var p := FirstBreak(s, 0);
    if p < |s| {
      var rest := StripLeft(s[p..], Whitespace);
      FragmentsShape(rest);
      var head := s[..p];
      assert NoBreak(head) by {
        forall q | 1 <= q < |head|
          ensures !IsBreak(head, q)
        {
          assert !IsBreak(s, q);
        }
      }
      assert Terminated(head);
      assert Fragments(s) == [head] + Fragments(rest);
    }
  }

  /** Stripping keeps a break-free piece break-free. */
  lemma StripNoBreak(f: string)
    requires NoBreak(f)
    ensures NoBreak(Strip(f))
  {
    var k := StripOffset(f);
    var t := Strip(f);
    forall q | 1 <= q < |t|
      ensures !IsBreak(t, q)
    {
      assert t[q - 1] == f[k + q - 1] && t[q] == f[k + q];
      assert !IsBreak(f, k + q);
    }
  }

  /** Stripping keeps a terminated piece terminated, with the same last character. */
  lemma StripTerminated(f: string)
    requires Terminated(f)
    ensures Terminated(Strip(f))
  {
    StripKeepsLast(f);
  }

  lemma {:induction false} StrippedShape(parts: seq<string>)
    requires AllNoBreak(parts) && TerminatedButLast(parts)
    ensures AllNoBreak(StrippedNonEmpty(parts)) && TerminatedButLast(StrippedNonEmpty(parts))
  {
    if parts != [] {
      var head := Strip(parts[0]);
      var tail := StrippedNonEmpty(parts[1..]);
      assert AllNoBreak(parts[1..]) && TerminatedButLast(parts[1..]) by {
        forall i | 0 <= i < |parts[1..]|
          ensures NoBreak(parts[1..][i])
        {
          assert parts[1..][i] == parts[i + 1];
        }
        forall i | 0 <= i < |parts[1..]| - 1
          ensures Terminated(parts[1..][i])
        {
          assert parts[1..][i] == parts[i + 1];
        }
      }
      StrippedShape(parts[1..]);
      StripNoBreak(parts[0]);
      if head != [] {
        var r := [head] + tail;
        assert StrippedNonEmpty(parts) == r;
        if |parts| > 1 {
          StripTerminated(parts[0]);
        } else {
          assert parts[1..] == [] && tail == [];
        }
        assert AllNoBreak(r) by {
          forall i | 0 <= i < |r|
            ensures NoBreak(r[i])
          {
            if i > 0 { assert r[i] == tail[i - 1]; }
          }
        }
        assert TerminatedButLast(r) by {
          forall i | 0 <= i < |r| - 1
            ensures Terminated(r[i])
          {
            if i > 0 { assert r[i] == tail[i - 1]; }
          }
        }
      } else {
        assert StrippedNonEmpty(parts) == tail;
      }
    }
  }

  /**
   * No sentence holds a terminal character followed by whitespace, and every
   * sentence but possibly the last ends with `.`, `!` or `?`.
   */
  lemma SentencesShape(text: string)
    ensures AllNoBreak(Sentences(text)) && TerminatedButLast(Sentences(text))
  {
    FragmentsShape(text);
    StrippedShape(Fragments(text));
  }

  /** The strings `ss` occur in `t` one after another, in order and without overlapping. */
  ghost predicate Occur(ss: seq<string>, t: string)
    decreases |ss|
  {
    ss == [] || exists k :: OccursAt(t, ss[0], k) && Occur(ss[1..], t[k + |ss[0]|..])
  }

  lemma {:induction false} OccurExtend(ss: seq<string>, v: string, u: string)
    requires Occur(ss, u)
    ensures Occur(ss, v + u)
  {
    if ss != [] {
      var k :| OccursAt(u, ss[0], k) && Occur(ss[1..], u[k + |ss[0]|..]);
      var t := v + u;
      assert t[|v| + k..|v| + k + |ss[0]|] == u[k..k + |ss[0]|];
      assert t[|v| + k + |ss[0]|..] == u[k + |ss[0]|..];
      assert OccursAt(t, ss[0], |v| + k);
    }
  }

  /** The first fragment, then the fragments after the whitespace that follows it. */
  lemma FragmentsStep(s: string, p: nat, rest: string)
    requires p == FirstBreak(s, 0) < |s| && rest == StripLeft(s[p..], Whitespace)
    requires Occur(Fragments(rest), rest)
    ensures Occur(Fragments(s), s)
  {
    var tail := Fragments(rest);
    var gap := s[p..|s| - |rest|];
    var after := s[p..];
    assert after == gap + rest;
    OccurExtend(tail, gap, rest);
    assert OccursAt(s, s[..p], 0);
    OccurCons(s[..p], tail, s, 0, after);
    assert Fragments(s) == [s[..p]] + tail;
  }

  lemma {:induction false} FragmentsOccur(s: string)
    ensures Occur(Fragments(s), s)
    decreases |s|
  {
    var p := FirstBreak(s, 0);
    if p == |s| {
      assert OccursAt(s, s, 0);
      assert Occur([], s[|s|..]);
      OccurCons(s, [], s, 0, s[|s|..]);
      assert [s] + [] == [s];
    } else {
      var rest := StripLeft(s[p..], Whitespace);
      FragmentsOccur(rest);
      FragmentsStep(s, p, rest);
    }
  }

  lemma OccurCons(x: string, rest: seq<string>, t: string, k: int, after: string)
    requires OccursAt(t, x, k) && after == t[k + |x|..] && Occur(rest, after)
    ensures Occur([x] + rest, t)
  {
    var ss := [x] + rest;
    assert ss[0] == x && ss[1..] == rest;
  }

  /** A piece of an occurrence is a piece of the text. */
  lemma OccurrenceSlice(t: string, sub: string, k: int, a: int, b: int)
    requires OccursAt(t, sub, k) && 0 <= a <= b <= |sub|
    ensures t[k + a..k + b] == sub[a..b]
  {
    forall i | 0 <= i < b - a
      ensures t[k + a..k + b][i] == sub[a..b][i]
    {
      assert t[k + a + i] == t[k..k + |sub|][a + i];
    }
  }

  /** A piece `h` of an occurring `f` can stand for `f` in front of what follows `f`. */
  lemma PieceOccurs(f: string, h: string, o: nat, tail: seq<string>, t: string, k: int, after: string)
    requires OccursAt(t, f, k) && o + |h| <= |f| && h == f[o..o + |h|]
    requires after == t[k + |f|..] && Occur(tail, after)
    ensures Occur([h] + tail, t)
  {
    OccurrenceSlice(t, f, k, o, o + |h|);
    var mid := t[k + o + |h|..k + |f|];
    var suffix := t[k + o + |h|..];
    assert suffix == mid + after;
    OccurExtend(tail, mid, after);
    OccurCons(h, tail, t, k + o, suffix);
  }

  /** One piece of `StrippedNonEmpty`: the stripped first piece, or nothing, in front of the rest. */
  lemma StrippedStep(parts: seq<string>, t: string, k: int, after: string)
    requires parts != [] && OccursAt(t, parts[0], k) && after == t[k + |parts[0]|..]
    requires Occur(StrippedNonEmpty(parts[1..]), after)
    ensures Occur(StrippedNonEmpty(parts), t)
  {
    if Strip(parts[0]) == [] {
      DroppedStep(parts, t, k, after);
    } else {
      KeptStep(parts, t, k, after);
    }
  }

  lemma DroppedStep(parts: seq<string>, t: string, k: int, after: string)
    requires parts != [] && OccursAt(t, parts[0], k) && after == t[k + |parts[0]|..]
    requires Occur(StrippedNonEmpty(parts[1..]), after) && Strip(parts[0]) == []
    ensures Occur(StrippedNonEmpty(parts), t)
  {
    var tail := StrippedNonEmpty(parts[1..]);
    assert StrippedNonEmpty(parts) == tail;
    var before := t[..k + |parts[0]|];
    assert t == before + after;
    OccurExtend(tail, before, after);
  }

  lemma KeptStep(parts: seq<string>, t: string, k: int, after: string)
    requires parts != [] && OccursAt(t, parts[0], k) && after == t[k + |parts[0]|..]
    requires Occur(StrippedNonEmpty(parts[1..]), after) && Strip(parts[0]) != []
    ensures Occur(StrippedNonEmpty(parts), t)
  {
    var head := Strip(parts[0]);
    var tail := StrippedNonEmpty(parts[1..]);
    assert StrippedNonEmpty(parts) == [head] + tail;
    var o := StripOffset(parts[0]);
    PieceOccurs(parts[0], head, o, tail, t, k, after);
  }

  lemma {:induction false} StrippedOccur(parts: seq<string>, t: string)
    requires Occur(parts, t)
    ensures Occur(StrippedNonEmpty(parts), t)
  {
    if parts != [] {
      var k :| OccursAt(t, parts[0], k) && Occur(parts[1..], t[k + |parts[0]|..]);
      var after := t[k + |parts[0]|..];
      StrippedOccur(parts[1..], after);
      StrippedStep(parts, t, k, after);
    }
  }

  /** The sentences appear in the text in order and do not overlap. */
  lemma SentencesOccur(text: string)
    ensures Occur(Sentences(text), text)
  {
    FragmentsOccur(text);
    StrippedOccur(Fragments(text), text);
  }

  /** Nothing but whitespace. */
  predicate AllSpace(s: string) {
    forall i :: 0 <= i < |s| ==> s[i] in Whitespace
  }

  /**
   * `t` is the strings `ss` in order with only whitespace before, between and
   * after them, and at least one whitespace character between each two.
   */
  ghost predicate Tiles(ss: seq<string>, t: string)
    decreases |ss|, 1
  {
    if ss == [] then AllSpace(t) else exists k :: TileAt(ss, t, k)
  }

  /** `ss[0]` starts at index `k` of `t` after only whitespace, and the rest of `ss` tiles what follows it. */
  ghost predicate TileAt(ss: seq<string>, t: string, k: int)
    requires ss != []
    decreases |ss|, 0
  {
    OccursAt(t, ss[0], k) && AllSpace(t[..k]) &&
    var after := t[k + |ss[0]|..];
    (|ss| > 1 ==> after != [] && after[0] in Whitespace) && Tiles(ss[1..], after)
  }

  /** Whitespace in front of a tiled text keeps it tiled. */
  lemma TilesAfterSpace(ss: seq<string>, b: string, t: string)
    requires AllSpace(b) && Tiles(ss, t)
    ensures Tiles(ss, b + t)
  {
    var u := b + t;
    if ss == [] {
      AllInConcat(b, t, Whitespace);
    } else {
      var k :| TileAt(ss, t, k);
      assert u[|b| + k..|b| + k + |ss[0]|] == t[k..k + |ss[0]|];
      assert u[|b| + k + |ss[0]|..] == t[k + |ss[0]|..];
      assert u[..|b| + k] == b + t[..k];
      AllInConcat(b, t[..k], Whitespace);
      assert TileAt(ss, u, |b| + k);
    }
  }

  /** A string after whitespace, then a tiling that opens with whitespace when it is not empty. */
  lemma TilesCons(pre: string, h: string, after: string, tail: seq<string>)
    requires AllSpace(pre) && Tiles(tail, after)
    requires tail != [] ==> after != [] && after[0] in Whitespace
    ensures Tiles([h] + tail, pre + h + after)
  {
    var ss := [h] + tail;
    var t := pre + h + after;
    assert ss[0] == h && ss[1..] == tail;
    assert t[..|pre|] == pre;
    assert t[|pre|..|pre| + |h|] == h;
    assert t[|pre| + |h|..] == after;
    assert TileAt(ss, t, |pre|);
  }

  /** A text without a break is one sentence, its stripped self, or none when it is blank. */
  lemma SentencesWhole(text: string)
    requires FirstBreak(text, 0) == |text|
    ensures Tiles(Sentences(text), text)
  {
    assert Fragments(text) == [text];
    var h := Strip(text);
    assert [text][1..] == [];
    assert Sentences(text) == (if h == [] then [] else [h]);
    if h != [] {
      var pre, post := StripCharsSplit(text, Whitespace);
      assert Tiles([], post);
      TilesCons(pre, h, post, []);
      assert [h] + [] == [h];
    }
  }

  /** At the first break: the stripped first fragment, then the sentences of what follows the break's whitespace. */
  lemma SentencesAtBreak(text: string, p: nat, rest: string)
    requires p == FirstBreak(text, 0) < |text| && rest == StripLeft(text[p..], Whitespace)
    ensures Strip(text[..p]) != [] && Sentences(text) == [Strip(text[..p])] + Sentences(rest)
  {
    FragmentsAtBreak(text, p, rest);
    BreakHeadKept(text, p);
    StrippedCons(text[..p], Fragments(rest));
  }

  lemma FragmentsAtBreak(text: string, p: nat, rest: string)
    requires p == FirstBreak(text, 0) < |text| && rest == StripLeft(text[p..], Whitespace)
    ensures Fragments(text) == [text[..p]] + Fragments(rest)
  {
  }

  /** The fragment before a break ends in a terminal, so stripping leaves something of it. */
  lemma BreakHeadKept(text: string, p: nat)
    requires p == FirstBreak(text, 0) < |text|
    ensures Strip(text[..p]) != []
  {
    var head := text[..p];
    assert IsBreak(text, p);
    assert head[p - 1] in Terminals;
    TerminalNotSpace(head[p - 1]);
    StripKeepsLast(head);
  }

  lemma StrippedCons(x: string, fs: seq<string>)
    requires Strip(x) != []
    ensures StrippedNonEmpty([x] + fs) == [Strip(x)] + StrippedNonEmpty(fs)
  {
    var parts := [x] + fs;
    assert parts[0] == x && parts[1..] == fs;
  }

  lemma TerminalNotSpace(c: char)
    requires c in Terminals
    ensures !IsSpace(c)
  {
  }

  /** The whitespace the first break removes is not empty. */
  lemma BreakGap(text: string, p: nat, rest: string) returns (gap: string)
    requires p == FirstBreak(text, 0) < |text| && rest == StripLeft(text[p..], Whitespace)
    ensures text == text[..p] + gap + rest
    ensures gap != [] && AllSpace(gap)
  {
    var tail := text[p..];
    var n := LeftCount(tail, Whitespace);
    gap := tail[..n];
    assert tail[0] == text[p] && n >= 1;
    assert tail == gap + rest;
  }

  /** A stripped piece, a non-empty gap of whitespace, then a tiled rest. */
  lemma TilesAcrossGap(head: string, gap: string, rest: string, tail: seq<string>)
    requires Strip(head) != [] && gap != [] && AllSpace(gap) && Tiles(tail, rest)
    ensures Tiles([Strip(head)] + tail, head + gap + rest)
  {
    var h := Strip(head);
    var pre, post := StripCharsSplit(head, Whitespace);
    var space := post + gap;
    SpaceFront(post, gap, rest);
    TilesAfterSpace(tail, space, rest);
    assert head + gap + rest == pre + h + (space + rest);
    TilesCons(pre, h, space + rest, tail);
  }

  /** Whitespace followed by a non-empty gap of whitespace opens what comes after it with whitespace. */
  lemma SpaceFront(post: string, gap: string, rest: string)
    requires AllSpace(post) && AllSpace(gap) && gap != []
    ensures AllSpace(post + gap)
    ensures post + gap + rest != [] && (post + gap + rest)[0] in Whitespace
  {
    AllInConcat(post, gap, Whitespace);
    assert (post + gap + rest)[0] == (post + gap)[0];
  }

  /**
   * The sentences tile the text: what the splitter drops is whitespace only,
   * and in the text each sentence is parted from the next by whitespace.
   */
  lemma {:induction false} SentencesTile(text: string)
    ensures Tiles(Sentences(text), text)
    decreases |text|
  {
    var p := FirstBreak(text, 0);
    if p == |text| {
      SentencesWhole(text);
    } else {
      var rest := StripLeft(text[p..], Whitespace);
      SentencesTile(rest);
      SentencesAtBreak(text, p, rest);
      var gap := BreakGap(text, p, rest);
      TilesAcrossGap(text[..p], gap, rest, Sentences(rest));
    }
  }

  /** A text gives no sentence exactly when it is nothing but whitespace. */
  lemma SentencesNone(text: string)
    ensures Sentences(text) == [] <==> AllSpace(text)
  {
    SentencesTile(text);
    var ss := Sentences(text);
    if ss != [] {
      var k :| TileAt(ss, text, k);
      assert text[k] == ss[0][0];
    }
  }

  //////////////////////////////////////////////////////////////////////////
  // parse_resume_docx
  //////////////////////////////////////////////////////////////////////////

  /** The heading rule, on a stripped line: all capitals, or a trailing colon. */
  predicate IsHeading(text: string) {
    IsUpper(text) || EndsWith(text, ":")
  }

  /** `text.strip(":").title()`. */
  function HeadingName(text: string): string {
    Title(StripChars(text, {':'}))
  }

  lemma {:induction false} TitleShape(s: string, previousCased: bool)
    ensures |TitleFrom(s, previousCased)| == |s|
    ensures forall i :: 0 <= i < |s| ==>
      if IsCasedChar(s[i]) then IsCasedChar(TitleFrom(s, previousCased)[i]) else TitleFrom(s, previousCased)[i] == s[i]
  {
    if s != [] {
      TitleShape(s[1..], IsCasedChar(s[0]));
      var t := TitleFrom(s, previousCased);
      forall i | 1 <= i < |s|
        ensures if IsCasedChar(s[i]) then IsCasedChar(t[i]) else t[i] == s[i]
      {
        assert t[i] == TitleFrom(s[1..], IsCasedChar(s[0]))[i - 1];
        assert s[1..][i - 1] == s[i];
      }
    }
  }

  /** A section name never starts or ends with a colon, and is as long as the colon-stripped text. */
  lemma HeadingNameShape(text: string)
    ensures |HeadingName(text)| == |StripChars(text, {':'})|
    ensures Unpadded(HeadingName(text), {':'})
  {
    var s := StripChars(text, {':'});
    TitleShape(s, false);
    var t := HeadingName(text);
    if t != [] {
      assert !IsCasedChar(':');
      assert t[0] != ':' && t[|t| - 1] != ':';
    }
  }

  /** A paragraph whose stripped text is a heading. */
  predicate IsHeadingLine(para: string) {
    Strip(para) != [] && IsHeading(Strip(para))
  }

  /** What one paragraph is to the loop. */
  datatype Line = Skip | Head(name: string) | Body(sentences: seq<string>)

  /**
   * A paragraph with nothing but whitespace is skipped; a heading line opens
   * the section `strip(":").title()` names; any other line carries its sentences.
   */
  function ReadLine(para: string): (l: Line)
    ensures l.Skip? <==> Strip(para) == []
    ensures l.Head? <==> IsHeadingLine(para)
    ensures l.Head? ==> l.name == HeadingName(Strip(para))
    ensures l.Body? ==> l.sentences == Sentences(Strip(para))
  {
    var text := Strip(para);
    if text == [] then Skip
    else if IsHeading(text) then Head(HeadingName(text))
    else Body(Sentences(text))
  }

  /** The line each paragraph is. */
  function Lines(ps: seq<Paragraph>): (r: seq<Line>)
    ensures |r| == |ps|
  {
    if ps == [] then [] else Lines(ps[..|ps| - 1]) + [ReadLine(ParagraphText(ps[|ps| - 1]))]
  }

  lemma LinesSnoc(ps: seq<Paragraph>, i: nat)
    requires i < |ps|
    ensures Lines(ps[..i + 1]) == Lines(ps[..i]) + [ReadLine(ParagraphText(ps[i]))]
  {
    assert ps[..i + 1][..i] == ps[..i];
  }

  /** The state of the loop: `current_section` and `resume_json`. */
  datatype RuleState = RuleState(current: Option<string>, sections: map<string, seq<string>>)

  /** A current section always has its list in the result. */
  predicate Tracked(s: RuleState) {
    s.current.Some? ==> s.current.value in s.sections
  }

  /**
   * One line: a heading opens (or empties) its section; a body extends the
   * current section with its sentences, unless there is no current section
   * or its name is empty.
   */
  function RuleStep(s: RuleState, l: Line): (r: RuleState)
    requires Tracked(s)
    ensures Tracked(r)
  {
    match l
    case Skip => s
    case Head(n) => RuleState(Some(n), s.sections[n := []])
    case Body(sentences) =>
      if s.current.Some? && s.current.value != [] then
        var c := s.current.value;
        RuleState(s.current, s.sections[c := s.sections[c] + sentences])
      else s
  }

  /** The loop over the lines, from no section and an empty result. */
  function RuleWalk(lines: seq<Line>): (r: RuleState)
    ensures Tracked(r)
  {
    if lines == [] then RuleState(None, map[])
    else RuleStep(RuleWalk(lines[..|lines| - 1]), lines[|lines| - 1])
  }

  lemma RuleWalkSnoc(lines: seq<Line>, l: Line)
    ensures RuleWalk(lines + [l]) == RuleStep(RuleWalk(lines), l)
  {
    assert (lines + [l])[..|lines|] == lines;
  }

  /** The loop body for one paragraph. */
  method ReadRule(para: Paragraph, current: Option<string>, sections: map<string, seq<string>>)
    returns (current': Option<string>, sections': map<string, seq<string>>)
    requires Tracked(RuleState(current, sections))
    ensures RuleState(current', sections') == RuleStep(RuleState(current, sections), ReadLine(ParagraphText(para)))
  {
    current', sections' := current, sections;
    var text := Strip(ParagraphText(para));
    if text == [] {
      return;
    }
    if IsHeading(text) {
      current' := Some(HeadingName(text));
      sections' := sections[current'.value := []];
      return;
    }
    if current.Some? && current.value != [] {
      var sentences := Sentences(text);
      sections' := sections[current.value := sections[current.value] + sentences];
    }
  }

  /** Rule-based `parse_resume_docx` over the document's paragraphs. */
  method ParseRules(paragraphs: seq<Paragraph>) returns (sections: map<string, seq<string>>)
    ensures sections == RuleWalk(Lines(paragraphs)).sections
  {
    var current: Option<string> := None;
    sections := map[];
    var i := 0;
    while i < |paragraphs|
      invariant 0 <= i <= |paragraphs|
      invariant RuleState(current, sections) == RuleWalk(Lines(paragraphs[..i]))
    {
      LinesSnoc(paragraphs, i);
      RuleWalkSnoc(Lines(paragraphs[..i]), ReadLine(ParagraphText(paragraphs[i])));
      current, sections := ReadRule(paragraphs[i], current, sections);
      i := i + 1;
    }
    assert paragraphs[..i] == paragraphs;
  }

  //////////////////////////////////////////////////////////////////////////
  // What the sections hold
  //////////////////////////////////////////////////////////////////////////

  /** The names of the headings among the lines. */
  function HeadNames(lines: seq<Line>): set<string> {
    set j | 0 <= j < |lines| && lines[j].Head? :: lines[j].name
  }

  /** The result's keys are exactly the names of the headings met. */
  lemma {:induction false} RuleKeys(lines: seq<Line>)
    ensures RuleWalk(lines).sections.Keys == HeadNames(lines)
  {
    if lines != [] {
      var init := lines[..|lines| - 1];
      var l := lines[|lines| - 1];
      RuleKeys(init);
      assert HeadNames(lines) == HeadNames(init) + (if l.Head? then {l.name} else {}) by {
        forall x | x in HeadNames(lines)
          ensures x in HeadNames(init) + (if l.Head? then {l.name} else {})
        {
          var j :| 0 <= j < |lines| && lines[j].Head? && lines[j].name == x;
          if j < |init| {
            assert init[j] == lines[j];
          }
        }
        forall x | x in HeadNames(init)
          ensures x in HeadNames(lines)
        {
          var j :| 0 <= j < |init| && init[j].Head? && init[j].name == x;
          assert lines[j] == init[j];
        }
      }
    }
  }

  predicate NoHeads(lines: seq<Line>) {
    forall j :: 0 <= j < |lines| ==> !lines[j].Head?
  }

  /** The sentences the body lines carry, in order. */
  function BodySentences(lines: seq<Line>): seq<string> {
    if lines == [] then []
    else
      var l := lines[|lines| - 1];
      BodySentences(lines[..|lines| - 1]) + (if l.Body? then l.sentences else [])
  }

  /** Before the first heading nothing is kept and there is no section. */
  lemma {:induction false} PreambleDropped(pre: seq<Line>)
    requires NoHeads(pre)
    ensures RuleWalk(pre) == RuleState(None, map[])
  {
    if pre != [] {
      PreambleDropped(pre[..|pre| - 1]);
    }
  }

  /** After a heading, the lines up to the next heading extend its section with their sentences. */
  lemma {:induction false} BodyExtends(lines: seq<Line>, body: seq<Line>, n: string)
    requires RuleWalk(lines).current == Some(n) && NoHeads(body)
    ensures var before := RuleWalk(lines).sections;
      RuleWalk(lines + body) ==
        RuleState(Some(n), before[n := before[n] + (if n == [] then [] else BodySentences(body))])
  {
    var before := RuleWalk(lines).sections;
    if body == [] {
      assert lines + body == lines;
      assert before[n] + [] == before[n];
      assert before[n := before[n] + []] == before;
    } else {
      var init := body[..|body| - 1];
      var last := body[|body| - 1];
      BodyExtends(lines, init, n);
      assert lines + body == (lines + init) + [last];
      RuleWalkSnoc(lines + init, last);
      var gathered := if n == [] then [] else BodySentences(init);
      var added := if n != [] && last.Body? then last.sentences else [];
      assert BodySentences(body) == BodySentences(init) + (if last.Body? then last.sentences else []);
      var mid := before[n := before[n] + gathered];
      assert RuleWalk(lines + init) == RuleState(Some(n), mid);
      if added == [] {
        if last.Body? && n != [] {
          assert mid[n] + last.sentences == mid[n];
          assert mid[n := mid[n] + last.sentences] == mid;
        }
        assert RuleWalk(lines + body).sections == mid;
        assert before[n] + gathered + added == before[n] + gathered;
      } else {
        assert RuleWalk(lines + body).sections == mid[n := mid[n] + added];
      }
      assert before[n] + gathered + added == before[n] + (if n == [] then [] else BodySentences(body));
    }
  }

  /** A section other than the current one is left alone by lines that do not head it. */
  lemma {:induction false} OtherSectionKept(lines: seq<Line>, post: seq<Line>, n: string)
    requires n in RuleWalk(lines).sections && RuleWalk(lines).current != Some(n)
    requires forall j :: 0 <= j < |post| ==> post[j] != Head(n)
    ensures n in RuleWalk(lines + post).sections && RuleWalk(lines + post).current != Some(n)
    ensures RuleWalk(lines + post).sections[n] == RuleWalk(lines).sections[n]
  {
    if post != [] {
      var init := post[..|post| - 1];
      OtherSectionKept(lines, init, n);
      assert lines + post == (lines + init) + [post[|post| - 1]];
      RuleWalkSnoc(lines + init, post[|post| - 1]);
    } else {
      assert lines + post == lines;
    }
  }

  /** Once another heading has been met, a section keeps its lines up to its own next heading. */
  lemma LaterLinesKeep(lines: seq<Line>, post: seq<Line>, n: string)
    requires RuleWalk(lines).current == Some(n)
    requires post == [] || post[0].Head?
    requires forall j :: 0 <= j < |post| ==> post[j] != Head(n)
    ensures n in RuleWalk(lines + post).sections
    ensures RuleWalk(lines + post).sections[n] == RuleWalk(lines).sections[n]
  {
    if post == [] {
      assert lines + post == lines;
    } else {
      var first := lines + [post[0]];
      RuleWalkSnoc(lines, post[0]);
      assert RuleWalk(first).current == Some(post[0].name) && post[0].name != n;
      OtherSectionKept(first, post[1..], n);
      assert lines + post == first + post[1..];
    }
  }

  /**
   * A section holds the sentences of the lines after the last heading with
   * its name and before the next heading; a heading whose name is empty
   * collects nothing.
   */
  lemma SectionIsLastBody(pre: seq<Line>, n: string, body: seq<Line>, post: seq<Line>)
    requires NoHeads(body)
    requires post == [] || post[0].Head?
    requires forall j :: 0 <= j < |post| ==> post[j] != Head(n)
    ensures var r := RuleWalk(pre + [Head(n)] + body + post).sections;
      n in r && r[n] == (if n == [] then [] else BodySentences(body))
  {
    var headed := pre + [Head(n)];
    RuleWalkSnoc(pre, Head(n));
    assert RuleWalk(headed).current == Some(n) && RuleWalk(headed).sections[n] == [];
    BodyExtends(headed, body, n);
    var mid := headed + body;
    assert RuleWalk(mid).current == Some(n);
    assert RuleWalk(mid).sections[n] == [] + (if n == [] then [] else BodySentences(body));
    LaterLinesKeep(mid, post, n);
  }
}
