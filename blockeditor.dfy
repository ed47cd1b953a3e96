/**
 * The editing rules of the block editor (src/components/Block/BlockEditor.tsx): the edited
 * copy of a block and the pending tag input, the edits that replace them with updated
 * copies, the block handed to onSave, and the word and character counts shown under the
 * content. The tags of the store are its tag map's values, in insertion order.
 */
module BlockEditor {
  import opened Types
  import Text
  import Seqs

  /** The editor's state: the edited copy of the block and the text of the tag input. */
  datatype Editor = Editor(edited: Block, newTag: string)

  /** The editor as it opens on a block. */
  function Open(b: Block): Editor {
    Editor(b, "")
  }

  /** The `handleChange(field, value)` calls the editor makes. */
  datatype Change =
    | SetTitle(title: string)
    | SetType(blockType: BlockType)
    | SetState(state: BlockState)
    | SetContent(content: string)
    | SetImmutability(immutability: ImmutabilityLevel)

  /** handleChange: `{...prev, [field]: value}`. */
  function HandleChange(e: Editor, c: Change): Editor {
    var b := e.edited;
    var b' := match c
      case SetTitle(t) => b.(title := t)
      case SetType(t) => b.(blockType := t)
      case SetState(s) => b.(state := s)
      case SetContent(s) => b.(content := s)
      case SetImmutability(l) => b.(immutability := l)
    ;
    e.(edited := b')
  }

  /** The field a change writes, compared on the edited block, and the value it writes. */
  predicate Applied(b: Block, c: Change) {
    match c
    case SetTitle(t) => b.title == t
    case SetType(t) => b.blockType == t
    case SetState(s) => b.state == s
    case SetContent(s) => b.content == s
    case SetImmutability(l) => b.immutability == l
  }

  /** The block with the field a change writes reset to that field of another block. */
  function Restore(b: Block, c: Change, before: Block): Block {
    match c
    case SetTitle(_) => b.(title := before.title)
    case SetType(_) => b.(blockType := before.blockType)
    case SetState(_) => b.(state := before.state)
    case SetContent(_) => b.(content := before.content)
    case SetImmutability(_) => b.(immutability := before.immutability)
  }

  /**
   * handleChange sets its field to the value and leaves every other field, and the tag
   * input, unchanged: restoring that one field gives back the block before the change.
   * Two changes of the same field keep only the later value.
   */
  lemma HandleChangeSpec(e: Editor, c: Change, d: Change)
    ensures Applied(HandleChange(e, c).edited, c)
    ensures HandleChange(e, c).newTag == e.newTag
    ensures Restore(HandleChange(e, c).edited, c, e.edited) == e.edited
    ensures c.SetTitle? && d.SetTitle? ==> HandleChange(HandleChange(e, c), d) == HandleChange(e, d)
    ensures c.SetContent? && d.SetContent? ==> HandleChange(HandleChange(e, c), d) == HandleChange(e, d)
  {
  }

  /** handleFieldChange: `fields: {...prev.fields, [key]: value}`; the input's value is a string. */
  function HandleFieldChange(e: Editor, key: string, value: string): (r: Editor)
    ensures r.edited.fields == e.edited.fields[key := Str(value)]
    ensures r.edited.(fields := e.edited.fields) == e.edited && r.newTag == e.newTag
  {
    e.(edited := e.edited.(fields := e.edited.fields[key := Str(value)]))
  }

  /** The key by which the tag input finds a tag: its label in lower case. */
  function LowerLabel(t: Tag): string {
    Text.Lower(t.labelText)
  }

  /** `Array.from(allTags.values()).find(t => t.label.toLowerCase() === lowered)`. */
  function FindTag(allTags: seq<Tag>, lowered: string): Option<Tag> {
    Seqs.Find(allTags, lowered, LowerLabel)
  }

  /** The input typed into the tag field. */
  function SetNewTag(e: Editor, text: string): Editor {
    e.(newTag := text)
  }

  /**
   * handleAddTag: with a non-empty input, the id of the first tag whose label matches the
   * input case-insensitively is appended unless the block already carries it, and the
   * input is cleared; an empty input does nothing.
   */
  function HandleAddTag(e: Editor, allTags: seq<Tag>): Editor {
    if e.newTag == "" then e
    else
      var existing := FindTag(allTags, Text.Lower(e.newTag));
      if existing.Some? && existing.value.id !in e.edited.tags then
        Editor(e.edited.(tags := e.edited.tags + [existing.value.id]), "")
      else
        e.(newTag := "")
  }

  /**
   * An empty input leaves the editor as it is. After an add attempt with a non-empty input
   * the input is empty and the block changes in its tags only: when the FIRST tag whose
   * label matches the input case-insensitively is one the block lacks, its id is appended,
   * and otherwise the tags stay as they were; without a match the tags stay as they were;
   * a block without repeated tags keeps none.
   */
  lemma HandleAddTagSpec(e: Editor, allTags: seq<Tag>)
    ensures e.newTag == "" ==> HandleAddTag(e, allTags) == e
    ensures e.newTag != "" ==>
            var r := HandleAddTag(e, allTags);
            var lowered := Text.Lower(e.newTag);
            && r.newTag == ""
            && r.edited.(tags := e.edited.tags) == e.edited
            && (forall i :: 0 <= i < |allTags| && LowerLabel(allTags[i]) == lowered
                            && (forall j :: 0 <= j < i ==> LowerLabel(allTags[j]) != lowered) ==>
                  r.edited.tags == if allTags[i].id in e.edited.tags then e.edited.tags
                                   else e.edited.tags + [allTags[i].id])
            && ((forall t :: t in allTags ==> LowerLabel(t) != lowered) ==> r.edited.tags == e.edited.tags)
            && (Seqs.NoDuplicates(e.edited.tags) ==> Seqs.NoDuplicates(r.edited.tags))
  {
    if e.newTag != "" {
      var lowered := Text.Lower(e.newTag);
      Seqs.FindSpec(allTags, lowered, LowerLabel);
      var existing := FindTag(allTags, lowered);
      forall i | 0 <= i < |allTags| && LowerLabel(allTags[i]) == lowered
                 && (forall j :: 0 <= j < i ==> LowerLabel(allTags[j]) != lowered)
        ensures existing == Some(allTags[i])
      {
        Seqs.FindFirst(allTags, lowered, LowerLabel, i);
      }
      if existing.None? {
        assert !Seqs.HasKey(allTags, lowered, LowerLabel);
        forall t | t in allTags ensures LowerLabel(t) != lowered {
          var k :| 0 <= k < |allTags| && allTags[k] == t;
          assert LowerLabel(allTags[k]) != lowered;
        }
      } else if existing.value.id !in e.edited.tags {
        AppendFreshTag(e.edited.tags, existing.value.id);
      }
    }
  }

  lemma AppendFreshTag(s: seq<TagId>, x: TagId)
    requires x !in s
    ensures Seqs.NoDuplicates(s) ==> Seqs.NoDuplicates(s + [x])
  {
    if Seqs.NoDuplicates(s) {
      forall i, j | 0 <= i < j < |s + [x]| ensures (s + [x])[i] != (s + [x])[j] {
        if j == |s| {
          assert (s + [x])[i] == s[i];
        }
      }
    }
  }

  /** Typing the same label again and adding it a second time changes nothing more. */
  lemma HandleAddTagIdempotent(e: Editor, allTags: seq<Tag>, input: string)
    ensures var once := HandleAddTag(SetNewTag(e, input), allTags);
            HandleAddTag(SetNewTag(once, input), allTags) == once.(newTag := if input == "" then input else "")
  {
    var once := HandleAddTag(SetNewTag(e, input), allTags);
    if input != "" {
      var existing := FindTag(allTags, Text.Lower(input));
      if existing.Some? {
        assert existing.value.id in once.edited.tags;
      }
    }
  }

  /** handleRemoveTag: `prev.tags.filter(t => t !== tagId)`. */
  function HandleRemoveTag(e: Editor, tagId: TagId): (r: Editor)
    ensures tagId !in r.edited.tags
    ensures forall t :: t in r.edited.tags <==> t in e.edited.tags && t != tagId
    ensures r.edited.(tags := e.edited.tags) == e.edited && r.newTag == e.newTag
  {
    e.(edited := e.edited.(tags := Seqs.Without(e.edited.tags, tagId)))
  }

  /** Removing a tag just added (one the block did not carry) gives the block back. */
  lemma RemoveUndoesAdd(e: Editor, allTags: seq<Tag>)
    requires e.newTag != ""
    requires FindTag(allTags, Text.Lower(e.newTag)).Some?
    ensures var t := FindTag(allTags, Text.Lower(e.newTag)).value;
            t.id !in e.edited.tags ==>
              HandleRemoveTag(HandleAddTag(e, allTags), t.id).edited == e.edited
  {
    var t := FindTag(allTags, Text.Lower(e.newTag)).value;
    if t.id !in e.edited.tags {
      Seqs.WithoutAppended(e.edited.tags, t.id);
    }
  }

  /** handleSave: the edited block with its version increased by one. */
  function HandleSave(e: Editor): (saved: Block)
    ensures saved.version == e.edited.version + 1
    ensures saved.(version := e.edited.version) == e.edited
  {
    e.edited.(version := e.edited.version + 1)
  }

  /** Opening a block and saving it at once only bumps its version. */
  lemma SaveWithoutEdits(b: Block)
    ensures HandleSave(Open(b)) == b.(version := b.version + 1)
  {
  }

  /** The counts shown under the content: `content.length` and the number of words. */
  function CharCount(content: string): nat {
    |content|
  }

  /** `content.trim().split(/\s+/).filter(Boolean).length`. */
  function WordCount(content: string): nat {
    |Text.Words(content)|
  }

  /**
   * Words are separated by white space, so there are at most half as many words as
   * characters, rounded up; a blank content has no words.
   */
  lemma {:induction false} WordCountBound(content: string)
    ensures 2 * WordCount(content) <= CharCount(content) + 1
    ensures Text.Blank(content) ==> WordCount(content) == 0
    decreases |content|
  {
    if Text.Blank(content) {
      Text.BlankHasNoWords(content);
    }
    if content != [] {
      if Text.IsSpace(content[0]) {
        WordCountBound(content[1..]);
        assert Text.Words(content) == Text.Words(content[1..]);
      } else {
        var n := Text.TokenLength(content);
        assert Text.Words(content) == [content[..n]] + Text.Words(content[n..]);
        if n < |content| {
          WordCountBound(content[n + 1..]);
          assert content[n..][1..] == content[n + 1..];
          assert Text.Words(content[n..]) == Text.Words(content[n + 1..]);
        }
      }
    }
  }

  /** A word followed by white space or by nothing is the first word. */
  lemma WordsOfWord(w: string, rest: string)
    requires IsWord(w)
    requires rest == [] || Text.IsSpace(rest[0])
    ensures Text.Words(w + rest) == [w] + Text.Words(rest)
  {
    var s := w + rest;
    TokenLengthOfWord(w, rest);
    assert s[..|w|] == w && s[|w|..] == rest;
  }

  lemma {:induction false} TokenLengthOfWord(w: string, rest: string)
    requires forall i :: 0 <= i < |w| ==> !Text.IsSpace(w[i])
    requires rest == [] || Text.IsSpace(rest[0])
    ensures Text.TokenLength(w + rest) == |w|
  {
    if w != [] {
      assert (w + rest)[1..] == w[1..] + rest;
      TokenLengthOfWord(w[1..], rest);
    } else {
      assert w + rest == rest;
    }
  }

  /** Leading white space does not start a word. */
  lemma WordsAfterSpace(c: char, rest: string)
    requires Text.IsSpace(c)
    ensures Text.Words([c] + rest) == Text.Words(rest)
  {
    assert ([c] + rest)[1..] == rest;
  }

  predicate IsWord(w: string) {
    w != [] && forall i :: 0 <= i < |w| ==> !Text.IsSpace(w[i])
  }

  /** Words joined by single spaces, as in "Hello world". */
  function JoinWords(ws: seq<string>): string {
    if ws == [] then "" else if |ws| == 1 then ws[0] else ws[0] + [' '] + JoinWords(ws[1..])
  }

  /**
   * Splitting words joined by single spaces gives the words back, so "Hello world" counts
   * 2 words and "New content here" 3.
   */
  lemma {:induction false} WordsOfJoin(ws: seq<string>)
    requires forall w :: w in ws ==> IsWord(w)
    ensures Text.Words(JoinWords(ws)) == ws
    ensures WordCount(JoinWords(ws)) == |ws|
  {
    if ws != [] {
      assert ws[0] in ws;
    }
    if |ws| == 1 {
      WordsOfWord(ws[0], "");
      assert ws[0] + "" == ws[0];
    } else if |ws| > 1 {
      var rest := JoinWords(ws[1..]);
      assert forall w :: w in ws[1..] ==> w in ws;
      WordsOfJoin(ws[1..]);
      WordsAfterSpace(' ', rest);
      assert ([' '] + rest)[0] == ' ';
      WordsOfWord(ws[0], [' '] + rest);
      assert ws[0] + [' '] + rest == ws[0] + ([' '] + rest);
      assert ws == [ws[0]] + ws[1..];
    }
  }
}
