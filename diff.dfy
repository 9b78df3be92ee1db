/**
 * `get_changed_sentences` in app/services/resume/diff.py: the sentences of
 * an updated resume whose text differs from the original sentence with the
 * same id, as from/to change records.
 */
module Diff {
  import opened Wrappers

  /**
   * A `{"id", "text", "bold_words", "italic_words"}` entry; a word list is
   * `None` when the entry has no such key.
   */
  datatype Sentence = Sentence(id: string, text: string, boldWords: Option<seq<string>>, italicWords: Option<seq<string>>)

  /** A change record; `fromSentence` is `None` when the id is not in the original. */
  datatype Change = Change(id: string, fromSentence: Option<string>, toSentence: string,
                           boldWords: seq<string>, italicWords: seq<string>)

  /** `{s["id"]: s["text"] for s in sentences}`: a later entry overwrites an earlier one with the same id. */
  function IdIndex(sentences: seq<Sentence>): map<string, string> {
    if sentences == [] then map[]
    else
      var last := sentences[|sentences| - 1];
      IdIndex(sentences[..|sentences| - 1])[last.id := last.text]
  }

  /** `original_map.get(id)`. */
  function Lookup(index: map<string, string>, id: string): Option<string> {
    if id in index then Some(index[id]) else None
  }

  /** The sentence's text is not the one the index holds for its id (or the id is missing). */
  predicate Differs(index: map<string, string>, u: Sentence) {
    Lookup(index, u.id) != Some(u.text)
  }

  /** The record emitted for an updated sentence; the word lists default to `[]`. */
  function Record(index: map<string, string>, u: Sentence): Change {
    Change(u.id, Lookup(index, u.id), u.text, u.boldWords.GetOr([]), u.italicWords.GetOr([]))
  }

  /** The records of the updated sentences that differ, in their order. */
  function Changes(index: map<string, string>, updated: seq<Sentence>): (r: seq<Change>)
    ensures |r| <= |updated|
  {
    if updated == [] then []
    else
      var u := updated[|updated| - 1];
      Changes(index, updated[..|updated| - 1]) + (if Differs(index, u) then [Record(index, u)] else [])
  }

  /** `get_changed_sentences(original, updated)["sentences"]`. */
  method ChangedSentences(original: seq<Sentence>, updated: seq<Sentence>) returns (changed: seq<Change>)
    ensures changed == Changes(IdIndex(original), updated)
  {
    var index: map<string, string> := map[];
    var i := 0;
    while i < |original|
      invariant 0 <= i <= |original|
      invariant index == IdIndex(original[..i])
    {
      assert original[..i + 1][..i] == original[..i];
      index := index[original[i].id := original[i].text];
      i := i + 1;
    }
    assert original[..i] == original;
    changed := [];
    var j := 0;
    while j < |updated|
      invariant 0 <= j <= |updated|
      invariant changed == Changes(index, updated[..j])
    {
      assert updated[..j + 1][..j] == updated[..j];
      var u := updated[j];
      var origText := if u.id in index then Some(index[u.id]) else None;
      if origText != Some(u.text) {
        changed := changed + [Change(u.id, origText, u.text, u.boldWords.GetOr([]), u.italicWords.GetOr([]))];
      }
      j := j + 1;
    }
    assert updated[..j] == updated;
  }

  //////////////////////////////////////////////////////////////////////////
  // Properties
  //////////////////////////////////////////////////////////////////////////

  /** The index holds exactly the ids of the original sentences. */
  lemma {:induction false} IdIndexKeys(sentences: seq<Sentence>)
    ensures IdIndex(sentences).Keys == set s | s in sentences :: s.id
  {
    if sentences != [] {
      var init := sentences[..|sentences| - 1];
      var last := sentences[|sentences| - 1];
      IdIndexKeys(init);
      assert sentences == init + [last];
      assert (set s | s in sentences :: s.id) == (set s | s in init :: s.id) + {last.id};
    }
  }

  /** The text the index holds for an id is that of the id's last entry. */
  lemma {:induction false} LastEntryWins(sentences: seq<Sentence>, j: int)
    requires 0 <= j < |sentences|
    requires forall k :: j < k < |sentences| ==> sentences[k].id != sentences[j].id
    ensures sentences[j].id in IdIndex(sentences) && IdIndex(sentences)[sentences[j].id] == sentences[j].text
  {
    var init := sentences[..|sentences| - 1];
    if j < |sentences| - 1 {
      forall k | j < k < |init|
        ensures init[k].id != init[j].id
      {
        assert init[k] == sentences[k];
      }
      LastEntryWins(init, j);
    }
  }

  /** Diffing a concatenation diffs the parts one after the other: the order of `updated` is kept. */
  lemma {:induction false} ChangesAppend(index: map<string, string>, a: seq<Sentence>, b: seq<Sentence>)
    ensures Changes(index, a + b) == Changes(index, a) + Changes(index, b)
  {
    if b == [] {
      assert a + b == a;
    } else {
      var init := b[..|b| - 1];
      ChangesAppend(index, a, init);
      assert (a + b)[..|a + b| - 1] == a + init;
    }
  }

  /**
   * A record is emitted exactly for each updated sentence whose id is missing
   * from the original or whose text differs from the original's.
   */
  lemma {:induction false} ChangesMembers(index: map<string, string>, updated: seq<Sentence>)
    ensures forall c :: c in Changes(index, updated) <==>
      exists i :: 0 <= i < |updated| && Differs(index, updated[i]) && c == Record(index, updated[i])
  {
    if updated != [] {
      var init := updated[..|updated| - 1];
      var u := updated[|updated| - 1];
      ChangesMembers(index, init);
      forall c
        ensures c in Changes(index, updated) <==>
          exists i :: 0 <= i < |updated| && Differs(index, updated[i]) && c == Record(index, updated[i])
      {
        if c in Changes(index, init) {
          var i :| 0 <= i < |init| && Differs(index, init[i]) && c == Record(index, init[i]);
          assert updated[i] == init[i];
        }
        if exists i :: 0 <= i < |updated| && Differs(index, updated[i]) && c == Record(index, updated[i]) {
          var i :| 0 <= i < |updated| && Differs(index, updated[i]) && c == Record(index, updated[i]);
          if i < |init| {
            assert init[i] == updated[i];
          }
        }
      }
    }
  }

  /** Every emitted record changes its sentence: its original text is not the new one. */
  lemma ChangesDiffer(index: map<string, string>, updated: seq<Sentence>)
    ensures forall c :: c in Changes(index, updated) ==>
      c.fromSentence == Lookup(index, c.id) && c.fromSentence != Some(c.toSentence)
  {
    ChangesMembers(index, updated);
  }

  /** With distinct ids, a resume diffed against itself has no changes. */
  lemma SelfDiffEmpty(x: seq<Sentence>)
    requires forall i, j :: 0 <= i < j < |x| ==> x[i].id != x[j].id
    ensures Changes(IdIndex(x), x) == []
  {
    var index := IdIndex(x);
    forall i | 0 <= i < |x|
      ensures !Differs(index, x[i])
    {
      LastEntryWins(x, i);
    }
    NothingDiffers(index, x);
  }

  /** When every updated sentence matches the index, nothing is emitted. */
  lemma {:induction false} NothingDiffers(index: map<string, string>, updated: seq<Sentence>)
    requires forall i :: 0 <= i < |updated| ==> !Differs(index, updated[i])
    ensures Changes(index, updated) == []
  {
    if updated != [] {
      var init := updated[..|updated| - 1];
      forall i | 0 <= i < |init|
        ensures !Differs(index, init[i])
      {
        assert init[i] == updated[i];
      }
      NothingDiffers(index, init);
    }
  }
}
