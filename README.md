# Resume document services, modelled in Dafny

This project models the document-processing core of a resume-tailoring
service. The service reads a Word resume, sorts its paragraphs into canonical
sections, splits text into sentences, and diffs two sentence lists by id. It
then writes changed sentences back into the document with bold and italic
styling, and fills the placeholders of a resume template.

The model covers five source files:

- `resume.py`:
  - the canonical section taxonomy and its alias index;
  - the line cleaner and the heading classifier;
  - the resume structurer, with its skills de-duplication.
- `parser.py`: the sentence splitter and the rule-based section parser.
- `diff.py`: the identity-keyed diff.
- `replacer.py`: the style-preserving replacer, for top-level paragraphs and for table cells.
- `generator.py`: the placeholder loop of the template filler.

The modules:

- `Wrappers`: `Option`.
- `Text`: the Python `str` operations the services call: `strip`, `rstrip`, `lower`, `title`, `isupper`, `in`, `endswith`, `split`, `join`, and `re.split` on a character class. Besides these, `StripLeft` stands for the `\s+` that the splitting pattern at `parser.py:6` consumes after a terminal, and `Upper` serves only the lemmas that show upper-cased headings are recognised.
- `Docx`: the document, as paragraphs of styled runs plus tables of rows of cells of paragraphs. `Document` is a class whose two fields the replacer and the filler reassign in place.
- `Taxonomy`: `CANONICAL_SECTIONS`, `ALL_ALIASES`, `_clean_line` and `_canonical_from_text` from `resume.py`. The fuzzy `difflib` steps are an oracle parameter (`Matcher`). All the model assumes is that any match it returns is one of the candidates it was given (`Chooses`).
- `Structurer`: `parse_resume_docx` from `resume.py`.
  - Every paragraph is first classified once (`Classify`, giving a `Kind`).
  - The loop is specified by `Walk`, a left fold of `Step`. `Walk` records each stored line together with the section it was read under.
  - The buckets are the lines filed under each section.
  - The methods `ParseResume`, `ReadParagraph`, `FileLine` and `DedupSkills` carry out the source's loops. They are proved against these functions.
- `Parser`: `parser.py`.
  - `Sentences` is `split_into_sentences`.
  - `ReadLine` classifies a paragraph as skipped, a heading or a body.
  - `RuleWalk` specifies the loop, and `ParseRules` carries it out.
- `Diff`, `Replacer`, `Generator`: `diff.py`, `replacer.py` and the `generator.py` loop. Each has methods with loops, specified by functions on values, and lemmas about those functions.

Where the code's behaviour is easy to misread, the model follows the code:

- Paragraph rebuild keeps the old runs (`replacer.py:10-11`). The code keeps every old run, with its style, and sets its text to `""`. It does not remove the runs.
- The split is on single spaces (`replacer.py:14-15`):
  - Words come from `split(" ")`, not from any whitespace, so two spaces in a row give a run whose text is `" "`.
  - Every new run keeps its trailing space.
- A rewritten cell has two paragraphs (`replacer.py:28-29`). `cell.text = ""` leaves one paragraph holding one empty run, and `add_paragraph` appends a second one after it. The rewritten text is therefore not the cell's only paragraph.
- All trailing colons are stripped (`resume.py:62`). The classifier normalises with `rstrip(":")`, which removes all of them, not just one.
- The structurer classifies every paragraph (`resume.py:114-117`). It sends every non-empty paragraph to the classifier. No upper-case or trailing-colon test comes first; that test exists only in `parser.py`.
- Unknown ids are reported and the comparison is untrimmed (`diff.py:7-11`):
  - An updated sentence whose id is missing from the original is reported, with `from_sentence` absent (`None`).
  - Texts are compared exactly, without trimming.
- The structurer's second emptiness test cannot fire (`resume.py:120-122`). A paragraph that is not empty after stripping is never empty after `_clean_line` either: a bullet is removed only when whitespace follows it, and a stripped text of two or more characters does not end in whitespace. The model keeps the branch, and `Structurer.Classify` proves that a paragraph is skipped exactly when its stripped text is empty.

## Model

Source paths are relative to the repository root.

| member | source | states |
|---|---|---|
| Taxonomy.Flatten | app/services/resume/resume.py:49-51 | every alias of every section is in the flattened alias list, and every element of that list is some section's alias |
| Taxonomy.AliasIndex | app/services/resume/resume.py:49-51 | defines `ALL_ALIASES` as the union, section by section in table order, of the maps from each alias to its section's name, a later section overriding an earlier one |
| Taxonomy.AliasIndexDomain | app/services/resume/resume.py:49-51 | `ALL_ALIASES` has exactly the aliases as keys, and maps every key to a section name |
| Taxonomy.AliasIndexOwner | app/services/resume/resume.py:49-51 | when no alias is listed twice, each alias maps to the section that lists it |
| Taxonomy.TaxonomyDisjoint | app/services/resume/resume.py:8-46 | no alias string appears under two canonical sections |
| Taxonomy.TaxonomyShaped | app/services/resume/resume.py:8-46 | there are eleven sections; every alias is non-empty, lower-case, and has no whitespace at either end and no trailing colon |
| Taxonomy.NamesShaped | app/services/resume/resume.py:8-46 | every canonical name is one capitalised ASCII word |
| Taxonomy.NamesAreAliases | app/services/resume/resume.py:8-46 | each section's lower-cased name is its first alias |
| Taxonomy.CleanLine | app/services/resume/resume.py:53-58 | the result has no surrounding whitespace; a single leading bullet is removed only when whitespace follows it, and otherwise the result is the stripped input; the result is empty exactly when the stripped input is |
| Taxonomy.Canonical | app/services/resume/resume.py:60-81 | text that is empty after normalisation gives `None`; any other result is one of the eleven canonical names, whatever the fuzzy matcher picks |
| Taxonomy.NamesRestored | app/services/resume/resume.py:76-79 | title-casing a lower-cased canonical name gives back that name, so the fuzzy-name branch returns a real key |
| Taxonomy.Normalize | app/services/resume/resume.py:62 | defines the classifier's key as `text.strip().rstrip(":").lower()` |
| Taxonomy.NormalizeDecorated | app/services/resume/resume.py:62 | a text with no whitespace or colon at its edges, followed by any number of colons, normalises to its lower-case form |
| Taxonomy.AliasLookup | app/services/resume/resume.py:62-68 | text whose normal form is an alias of a section is classified as that section |
| Taxonomy.AliasRecognised | app/services/resume/resume.py:62-68 | every alias, also followed by colons and also upper-cased, is classified as its own section |
| Taxonomy.NameRecognised | app/services/resume/resume.py:62-68 | every canonical name, followed by colons and also upper-cased, is classified as itself |
| Structurer.NameListed | app/services/resume/resume.py:91-104 | every canonical section other than Summary has a list bucket, so `result[current_section]` always exists |
| Structurer.Classify | app/services/resume/resume.py:109-122 | a heading is a paragraph the classifier recognises, and it carries the canonical name; content is the cleaned line of an unrecognised paragraph and is never empty; a paragraph is blank exactly when it is empty after stripping |
| Structurer.Step | app/services/resume/resume.py:114-126 | defines one paragraph's effect on the walk: a blank one changes nothing, a heading becomes the current section, and a content line is stored under the current section |
| Structurer.Walk | app/services/resume/resume.py:108-135 | defines the walk as `Step` applied to each paragraph in order, from no section and no stored lines; it stores at most one line per paragraph |
| Structurer.WalkFiled | app/services/resume/resume.py:108-135 | the walk stores only clean lines, each filed under no section or under a canonical one |
| Structurer.WalkStoresContent | app/services/resume/resume.py:114-126 | the stored lines are exactly the content paragraphs in order; heading lines are never stored |
| Structurer.PreambleIsOther | app/services/resume/resume.py:124-126 | content read before any heading goes to `Other`, in order |
| Structurer.OtherIsPreamble | app/services/resume/resume.py:115-126 | once a heading has been recognised, nothing more goes to `Other` |
| Structurer.SectionAfterHeading | app/services/resume/resume.py:115-135 | after a heading, the content lines that follow, up to the next heading, are appended to that section |
| Structurer.SummaryContent | app/services/resume/resume.py:128-129 | a Summary line changes only the summary, which becomes `(summary + " " + line).strip()` |
| Structurer.SummaryAppend | app/services/resume/resume.py:129 | appending with a space and stripping is the same as joining all Summary lines with single spaces |
| Structurer.SummaryShape | app/services/resume/resume.py:128-129 | the summary has no surrounding whitespace, and it is empty exactly when no Summary line was read |
| Structurer.ContentBuckets | app/services/resume/resume.py:130-135 | a content line under a non-Summary section extends only that section's bucket: with its split skills for Skills, and with the line itself otherwise |
| Structurer.FileLine | app/services/resume/resume.py:124-135 | filing one cleaned line updates the summary and the buckets exactly as one step of the walk does |
| Structurer.ReadParagraph | app/services/resume/resume.py:109-135 | one loop iteration updates the current section, the summary and the buckets as one step of the walk does |
| Structurer.ParseResume | app/services/resume/resume.py:83-147 | the result has exactly the eleven list keys plus Summary; each list bucket is the lines filed under its section; Skills is the de-duplicated split of the Skills lines; Summary is the Summary lines joined |
| Structurer.FinalBuckets | app/services/resume/resume.py:137-147 | after de-duplication, each non-Skills bucket is unchanged and Skills is the de-duplicated skill list |
| Structurer.DedupSkills | app/services/resume/resume.py:138-145 | the `seen`-set loop computes `Dedup` |
| Structurer.Dedup | app/services/resume/resume.py:138-145 | the result is no longer than the input, and every element comes from the input |
| Structurer.DedupKeys | app/services/resume/resume.py:140-145 | the result has exactly the same set of lower-cased forms as the input |
| Structurer.DedupIsFirstOccurrences | app/services/resume/resume.py:140-145 | the result is the entries whose lower-cased form was not seen earlier, in input order and with their own casing |
| Structurer.DedupDistinct | app/services/resume/resume.py:141-143 | no two entries of the result are equal after `lower()` |
| Structurer.DedupIdle | app/services/resume/resume.py:140-145 | a list with no case-insensitive duplicates is left unchanged |
| Structurer.SplitSkills | app/services/resume/resume.py:132 | defines a Skills line's items as `[s.strip() for s in re.split(r"[,;/]", line) if s.strip()]` |
| Structurer.SkillsShaped | app/services/resume/resume.py:130-145 | every final skill is non-empty, stripped, and free of `,`, `;` and `/`, and no two are equal after `lower()` |
| Structurer.LinesUnder | app/services/resume/resume.py:124-135 | a section never holds more lines than were stored, and all of them are clean |
| Text.StrippedNonEmpty | app/services/resume/parser.py:6 | `[p.strip() for p in parts if p.strip()]` has only non-empty, stripped elements, and no more of them than there are parts |
| Parser.Fragments | app/services/resume/parser.py:6 | `re.split` with the look-behind pattern always yields at least one piece |
| Parser.SentencesOfEmpty | app/services/resume/parser.py:4-6 | an empty text has no sentences |
| Parser.Sentences | app/services/resume/parser.py:4-6 | every sentence is non-empty and has no surrounding whitespace |
| Parser.SentencesShape | app/services/resume/parser.py:6 | no sentence holds `.`, `!` or `?` followed by whitespace, and every sentence except possibly the last ends with one of them |
| Parser.SentencesOccur | app/services/resume/parser.py:6 | the sentences occur in the text in order and without overlapping |
| Parser.SentencesTile | app/services/resume/parser.py:4-6 | the sentences tile the text: it is the sentences in order with only whitespace before, between and after them, and at least one whitespace character between each two, so the split drops nothing but whitespace |
| Parser.SentencesNone | app/services/resume/parser.py:4-6 | a text has no sentences exactly when it is nothing but whitespace |
| Parser.TitleShape | app/services/resume/parser.py:24 | `title()` keeps the length, keeps cased characters cased and leaves every other character alone |
| Parser.HeadingNameShape | app/services/resume/parser.py:24 | a section name is as long as the colon-stripped heading, and has no colon at either end |
| Parser.IsHeading | app/services/resume/parser.py:23 | defines the heading rule as `text.isupper() or text.endswith(":")` |
| Parser.HeadingName | app/services/resume/parser.py:24 | defines a section's name as `text.strip(":").title()` |
| Parser.ReadLine | app/services/resume/parser.py:18-30 | a paragraph is skipped exactly when it is empty after stripping; it is a heading exactly when it is upper-case or ends with `:`, and then it is named `strip(":").title()`; otherwise it carries its sentences |
| Parser.RuleStep | app/services/resume/parser.py:18-30 | defines one line's effect: a heading becomes the current section with a fresh empty list, and a body line extends the current section's list when that section's name is not empty |
| Parser.RuleWalk | app/services/resume/parser.py:14-30 | defines the loop as `RuleStep` applied to each line in order, from no section and an empty result; the current section always has a list |
| Parser.ReadRule | app/services/resume/parser.py:18-30 | one loop iteration moves the state as one step of the rule walk |
| Parser.ParseRules | app/services/resume/parser.py:14-32 | the loop returns the sections of the rule walk over the paragraphs |
| Parser.RuleKeys | app/services/resume/parser.py:23-25 | the result's keys are exactly the distinct heading names met |
| Parser.PreambleDropped | app/services/resume/parser.py:17-30 | before the first heading, no section exists and nothing is kept |
| Parser.BodyExtends | app/services/resume/parser.py:28-30 | after a heading, the body lines before the next heading extend its section with their sentences in order; a heading named `""` collects nothing |
| Parser.OtherSectionKept | app/services/resume/parser.py:25-30 | a section that is not the current one keeps its sentences through any lines that do not head it again |
| Parser.SectionIsLastBody | app/services/resume/parser.py:25-30 | a section holds exactly the sentences of the body lines after the last heading with its name, up to the next heading, so a repeated heading resets it |
| Diff.IdIndex | app/services/resume/diff.py:4 | defines `original_map` by inserting each original sentence's id and text in order, a later entry overwriting an earlier one |
| Diff.Lookup | app/services/resume/diff.py:7 | defines `original_map.get(id)`: the text held for the id, or `None` |
| Diff.IdIndexKeys | app/services/resume/diff.py:4 | `original_map` has exactly the ids of the original sentences as keys |
| Diff.LastEntryWins | app/services/resume/diff.py:4 | for duplicate ids, the text of the last occurrence is the one compared |
| Diff.Changes | app/services/resume/diff.py:6-15 | there are never more records than updated sentences |
| Diff.ChangedSentences | app/services/resume/diff.py:1-17 | the two loops compute `Changes` over the index of the original |
| Diff.ChangesAppend | app/services/resume/diff.py:6-15 | records follow the order of the updated list |
| Diff.ChangesMembers | app/services/resume/diff.py:7-15 | a record is emitted exactly for each updated sentence whose id is missing or whose text differs exactly from the original's; each record is that sentence's id and text, its original text or `None`, and its word lists, each defaulting to `[]` when absent |
| Diff.ChangesDiffer | app/services/resume/diff.py:7-11 | every record's `from_sentence` is the original text (`None` for an unknown id), and it is never equal to its `to_sentence` |
| Diff.NothingDiffers | app/services/resume/diff.py:6-8 | when every updated sentence matches the original text, nothing is emitted |
| Diff.SelfDiffEmpty | app/services/resume/diff.py:4-8 | with distinct ids, diffing a list against itself gives no changes |
| Replacer.Words | app/services/resume/replacer.py:14 | defines the words as `to_sentence.split(" ")`, empty pieces included |
| Replacer.CleanWord | app/services/resume/replacer.py:16 | defines the looked-up form as `word.strip(",.!?;:")` |
| Replacer.Rebuilt | app/services/resume/replacer.py:9-21 | defines a rewritten top-level paragraph as its old runs with empty text, followed by one styled run per word |
| Replacer.RewrittenCell | app/services/resume/replacer.py:27-37 | defines a rewritten cell as one paragraph holding one empty run, then a paragraph of one styled run per word; a cell without the old sentence is kept |
| Replacer.ClearRuns | app/services/resume/replacer.py:10-11 | the loop gives each old run an empty text and keeps its style |
| Replacer.StyleWords | app/services/resume/replacer.py:14-21 | the loop adds one run per `split(" ")` word, styled by membership of the punctuation-stripped word |
| Replacer.RebuildParagraph | app/services/resume/replacer.py:9-21 | the rebuilt paragraph is the cleared old runs followed by the styled word runs |
| Replacer.RewriteRow | app/services/resume/replacer.py:26-37 | the cell loop rewrites exactly the cells containing the old sentence |
| Replacer.RewriteTable | app/services/resume/replacer.py:25-37 | the row loop rewrites each row |
| Replacer.ReplaceAndStyle | app/services/resume/replacer.py:3-37 | the document's paragraphs and tables become the replaced ones, each paragraph and table visited once |
| Replacer.ClearedText | app/services/resume/replacer.py:10-11 | cleared runs contribute no text |
| Replacer.StyledText | app/services/resume/replacer.py:14-15 | the new runs read as the words joined by spaces, plus one trailing space |
| Replacer.RebuiltText | app/services/resume/replacer.py:9-15 | a rewritten paragraph's text is exactly `to_sentence + " "` |
| Replacer.RebuiltRunCount | app/services/resume/replacer.py:10-15 | a rewritten paragraph keeps its old runs and gains one run per space in `to_sentence`, plus one |
| Replacer.RebuiltRuns | app/services/resume/replacer.py:10-21 | the old runs keep their styles with empty text; the run for the k-th word is `word + " "`, bold exactly when the stripped word is a bold word, and italic likewise and independently |
| Replacer.PunctuationIgnored | app/services/resume/replacer.py:16 | a `,.!?;:` at either end of a word does not change its stripped form, so it does not change the run's styling |
| Replacer.UnlistedUnstyled | app/services/resume/replacer.py:4-21 | with both word lists `None`, which `bold_words or []` turns into empty lists, no new run is bold or italic |
| Replacer.ReplacedParagraphsText | app/services/resume/replacer.py:7-8 | every top-level paragraph containing the old sentence, not just the first, reads `to_sentence + " "`; every other paragraph is unchanged; the count is kept |
| Replacer.RewrittenCellText | app/services/resume/replacer.py:27-37 | a rewritten cell holds two paragraphs, an empty one and the styled runs, so it reads `"\n" + to_sentence + " "` |
| Replacer.AbsentLeavesDocument | app/services/resume/replacer.py:8-27 | when the old sentence occurs in no paragraph and no cell, the paragraphs and the tables are unchanged |
| Generator.Value | app/services/resume/generator.py:12-28 | defines a placeholder's text as the summary, or `""` when it is missing, and a section's list joined by `", "` for SKILLS and by `"\n"` for the others, an absent list counting as `[]` |
| Generator.Check | app/services/resume/generator.py:12-13 | defines one check: when the token is in the paragraph's current text, the text becomes the placeholder's value |
| Generator.Checks | app/services/resume/generator.py:12-28 | defines the checks of a list of placeholders as each check in order on the paragraph the previous ones left |
| Generator.SetText | app/services/resume/generator.py:13 | after `para.text = x` the paragraph reads `x` |
| Generator.ApplyCheck | app/services/resume/generator.py:12-13 | one check replaces the text only when the token is in the current text |
| Generator.FillParagraph | app/services/resume/generator.py:12-28 | the six checks run in the order SUMMARY, SKILLS, EXPERIENCE, EDUCATION, PROJECTS, CERTIFICATIONS, each on the text the previous one left |
| Generator.FillTemplate | app/services/resume/generator.py:11-28 | every top-level paragraph is filled, and the tables are untouched |
| Generator.ChecksWithoutTokens | app/services/resume/generator.py:11-28 | a paragraph containing none of the tokens is unchanged |
| Generator.FirstTokenFires | app/services/resume/generator.py:12-28 | the checks up to the first token a paragraph contains leave it holding that placeholder's value |
| Generator.FirstTokenWins | app/services/resume/generator.py:12-28 | with several tokens in a paragraph, only the first in check order is expanded, unless its value contains a later token |
| Generator.ValueWithNextTokenReplaced | app/services/resume/generator.py:12-28 | a value that contains the next token is overwritten in turn, because each check reads the current text |
| Generator.FilledByFirstPlaceholder | app/services/resume/generator.py:12-28 | a paragraph whose first placeholder is SUMMARY (SKILLS, …) gets the summary, or `""` when it is missing (the skills joined by `", "`, the other lists joined by `"\n"`, `""` when missing), as a single run, when that value holds no later placeholder |
| Generator.FilledParagraphsKeep | app/services/resume/generator.py:11-28 | the number of paragraphs is kept, and paragraphs without placeholders are unchanged |

## Left out

- Document loading and saving: `Document(file)`, `doc.save` and `convert_to_pdf` are file I/O, and `convert_to_pdf` calls an external converter. The model starts from a `Document` value and ends with its new state.
- python-docx: the model replaces it with the `Docx` datatypes. Paragraph text is the concatenation of run texts, and a cell's text is its paragraphs' texts joined by `"\n"`.
- Placement of new runs: `add_run` and `add_paragraph` are modelled as appending, and the `para.text` and `cell.text` setters as the content they leave behind.
- Docx.Run: a run's bold and italic flags are `bool`. python-docx's third value, `None` (inherit), is modelled as `false`.
- Object identity: runs, paragraphs and cells are values. The model does not capture aliasing between python-docx objects.
- Merged cells: `row.cells` can return the same merged cell several times, and the replacer would then visit it again. The model treats every cell as distinct.
- Nested tables, headers and footers: the source does not traverse them, and neither does the model.
- Fuzzy matching: `difflib.get_close_matches` and its 0.8 similarity ratio (`resume.py:71,76`) are the oracle `Matcher`. Its only assumption is that a match it returns is one of its candidates. Tie-breaking and the ratio itself are not modelled.
- Unicode case rules: `lower`, `title` and `isupper`, and the model's `Upper`, act on ASCII letters. Every other character is uncased.
- `para.text or ""` (`resume.py:109`): paragraph text is never `None` in the model.
- Diff.Record: a `bold_words` or `italic_words` key whose value is JSON `null` is copied by the source as `None`. The model has only a present list or an absent key (`None`), and an absent key becomes `[]`.
- Replacer.ReplaceAndStyle: `from_sentence` is a string in the model. The source evaluates `from_sentence in para.text`, which raises `TypeError` when `from_sentence` is `None`, and `get_changed_sentences` emits `None` for every id missing from the original. That error path is not modelled.
- Section key order: `parser.py` builds its result in the order headings first appear, and `resume.py` builds its keys in a fixed order. The model's results are maps, which have no order.
- Diff.ChangedSentences: the source raises `KeyError` when an original or updated entry lacks its `"id"` or `"text"` key (`diff.py:4`, `diff.py:7-8`), or when either argument lacks `"sentences"` (`diff.py:4`, `diff.py:6`). The model's `Sentence` always has an id and a text, and its arguments are the sentence lists themselves, so this error path is not modelled: it is a failure on malformed JSON, not a diffing rule.
- Diff.ChangedSentences: the source wraps its result as `{"sentences": L}`. The model returns `L`.
- Diff.ChangedSentences: ids are modelled as strings; the source accepts any hashable value.
- Generator.FillTemplate: it assumes the JSON's `Summary` is a string and its section values are lists of strings. Values of other JSON types are not modelled.
- Generator.SetText: python-docx stores a `"\n"` in the new text as a line break. The model keeps it as the character, which is how the paragraph's text reads back.
- `tailor.py` is not part of this model. It calls an external language-model service and loads a demo file.
- The database, authentication, API routing, schema validation and configuration modules are not part of this model. They have no resume-processing logic of their own.
