/** The tag input of the profile page (skills and interests): a list of tags
    and the text being typed, changed by key presses and by the remove buttons. */
module ClientProfile {
  import opened Common
  import opened Text

  datatype TagInput = TagInput(tags: seq<string>, input: string)

  predicate Distinct(tags: seq<string>) {
    forall i, j :: 0 <= i < j < |tags| ==> tags[i] != tags[j]
  }

  /** Enter or a comma commits the trimmed text, when there is any. */
  predicate Commits(key: string, input: string) {
    (key == "Enter" || key == ",") && !IsBlank(input)
  }

  /** `handleKeyDown`: a commit adds the trimmed text unless it is already a
      tag, and clears the text either way; Backspace on an empty text drops
      the last tag; every other key leaves the tag input as it is. Only a
      commit prevents the key's default action, so Enter on blank text still
      submits the surrounding profile form, which this model does not follow. */
  function KeyDown(s: TagInput, key: string): (r: TagInput)
    ensures Commits(key, s.input) ==> r.input == "" && Trim(s.input) in r.tags
    ensures Commits(key, s.input) && Trim(s.input) in s.tags ==> r.tags == s.tags
    ensures Commits(key, s.input) && Trim(s.input) !in s.tags ==>
      |r.tags| == |s.tags| + 1 && r.tags[..|s.tags|] == s.tags && r.tags[|s.tags|] == Trim(s.input)
    ensures !Commits(key, s.input) ==> r.input == s.input
    ensures |r.tags| <= |s.tags| + 1
  {
    var afterCommit :=
      if Commits(key, s.input) then
        var tag := Trim(s.input);
        TagInput(if tag in s.tags then s.tags else s.tags + [tag], "")
      else s;
    if key == "Backspace" && s.input == "" && |s.tags| > 0 then afterCommit.(tags := s.tags[..|s.tags| - 1])
    else afterCommit
  }

  /** Key presses never create a duplicate tag. */
  lemma KeyDownKeepsDistinct(s: TagInput, key: string)
    requires Distinct(s.tags)
    ensures Distinct(KeyDown(s, key).tags)
  {
  }

  /** Without a commit no tag is added: the tags are unchanged or lose the last one. */
  lemma OnlyCommitsAdd(s: TagInput, key: string)
    requires !Commits(key, s.input)
    ensures var r := KeyDown(s, key);
      && (r.tags == s.tags || (|s.tags| > 0 && r.tags == s.tags[..|s.tags| - 1]))
      && (r.tags != s.tags <==> key == "Backspace" && s.input == "" && |s.tags| > 0)
  {
  }

  /** Blank text (only white space) never becomes a tag, and every added tag is trimmed. */
  lemma CommittedTagIsTrimmed(s: TagInput, key: string)
    requires forall i :: 0 <= i < |s.tags| ==> Trim(s.tags[i]) == s.tags[i] && s.tags[i] != ""
    ensures var r := KeyDown(s, key);
      forall i :: 0 <= i < |r.tags| ==> Trim(r.tags[i]) == r.tags[i] && r.tags[i] != ""
  {
    var r := KeyDown(s, key);
    if Commits(key, s.input) {
      TrimIdempotent(s.input);
    }
    forall i | 0 <= i < |r.tags| ensures Trim(r.tags[i]) == r.tags[i] && r.tags[i] != "" {
      if i < |s.tags| {
        assert r.tags[i] == s.tags[i];
      } else {
        assert r.tags[i] == Trim(s.input);
      }
    }
  }

  /** A fresh tag committed and then a Backspace on the cleared text gives the old tags back. */
  lemma CommitThenBackspace(s: TagInput, key: string)
    requires Commits(key, s.input) && Trim(s.input) !in s.tags
    ensures KeyDown(KeyDown(s, key), "Backspace") == TagInput(s.tags, "")
  {
    assert (s.tags + [Trim(s.input)])[..|s.tags|] == s.tags;
  }

  /** `tags.filter((_, i) => i !== index)`, element by element from position `from`. */
  function KeepOthers(tags: seq<string>, index: int, from: int): (r: seq<string>)
    decreases |tags|
  {
    if tags == [] then []
    else (if from == index then [] else [tags[0]]) + KeepOthers(tags[1..], index, from + 1)
  }

  /** `removeTag(index)`. */
  function RemoveTag(tags: seq<string>, index: int): seq<string> {
    KeepOthers(tags, index, 0)
  }

  lemma {:induction false} KeepOthersIs(tags: seq<string>, index: int, from: int)
    ensures KeepOthers(tags, index, from) ==
      if from <= index < from + |tags| then tags[..index - from] + tags[index - from + 1..] else tags
    decreases |tags|
  {
    if tags != [] {
      KeepOthersIs(tags[1..], index, from + 1);
      if from < index < from + |tags| {
        assert tags[1..][..index - from - 1] == tags[1..index - from];
        assert [tags[0]] + tags[1..index - from] == tags[..index - from];
        assert tags[1..][index - from..] == tags[index - from + 1..];
      } else if index == from {
        assert tags == [tags[0]] + tags[1..];
      } else {
        assert [tags[0]] + tags[1..] == tags;
      }
    }
  }

  /** Removing position `index` drops exactly that tag and keeps the others in
      order; an index outside the list changes nothing. */
  lemma RemoveTagRemovesOne(tags: seq<string>, index: int)
    ensures var r := RemoveTag(tags, index);
      && (0 <= index < |tags| ==>
            && |r| == |tags| - 1
            && (forall j :: 0 <= j < index ==> r[j] == tags[j])
            && (forall j :: index <= j < |r| ==> r[j] == tags[j + 1])
            && multiset(r) == multiset(tags) - multiset{tags[index]})
      && (!(0 <= index < |tags|) ==> r == tags)
  {
    KeepOthersIs(tags, index, 0);
    if 0 <= index < |tags| {
      assert tags == tags[..index] + [tags[index]] + tags[index + 1..];
    }
  }

  /** Removing a tag keeps the list free of duplicates. */
  lemma RemoveTagKeepsDistinct(tags: seq<string>, index: int)
    requires Distinct(tags)
    ensures Distinct(RemoveTag(tags, index))
  {
    RemoveTagRemovesOne(tags, index);
    var r := RemoveTag(tags, index);
    if 0 <= index < |tags| {
      forall i, j | 0 <= i < j < |r| ensures r[i] != r[j] {
        var i' := if i < index then i else i + 1;
        var j' := if j < index then j else j + 1;
        assert r[i] == tags[i'] && r[j] == tags[j'];
      }
    }
  }
}
