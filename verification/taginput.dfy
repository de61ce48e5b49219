/** The tag editor of `TagInput.tsx`: a list of tags (the controlled `value`
    the parent owns) and the text being typed. Adding trims with JavaScript's
    `String.prototype.trim`, refuses empty and duplicate tags, and clears the
    text only on success; Backspace on an empty field drops the last tag; the
    remove button filters a tag out. */
module TagInput {
  import opened Text

  datatype TagState = TagState(tags: seq<string>, input: string)

  /** The keys the key handler distinguishes. */
  datatype Key = Enter | Comma | Backspace | OtherKey

  /** Every user action the component reacts to. */
  datatype Event =
    | KeyDown(key: Key)
    | Typed(text: string)
    | AddClicked
    | RemoveClicked(tag: string)

  /** No tag appears twice. */
  predicate NoDuplicates(tags: seq<string>) {
    forall i, j :: 0 <= i < j < |tags| ==> tags[i] != tags[j]
  }

  /** `addTag(tag)`. */
  function AddTag(s: TagState, tag: string): TagState {
    var trimmed := Trim(tag, JavaScript);
    if trimmed == [] then s
    else if trimmed in s.tags then s
    else TagState(s.tags + [trimmed], "")
  }

  /** `removeTag(tag)`: `value.filter(t => t !== tag)`. */
  function RemoveTag(tags: seq<string>, tag: string): (r: seq<string>)
    ensures tag !in r
    ensures forall x :: x in r <==> x in tags && x != tag
    ensures forall x :: x != tag ==> multiset(r)[x] == multiset(tags)[x]
    decreases |tags|
  {
    if tags == [] then []
    else
      var rest := RemoveTag(tags[1..], tag);
      assert tags == [tags[0]] + tags[1..];
      if tags[0] == tag then rest else [tags[0]] + rest
  }

  /** The state after one event. */
  function Step(s: TagState, e: Event): TagState {
    match e
    case KeyDown(k) =>
      if k == Enter || k == Comma then AddTag(s, s.input)
      else if k == Backspace && s.input == [] && |s.tags| > 0 then s.(tags := s.tags[..|s.tags| - 1])
      else s
    case Typed(text) => s.(input := text)
    case AddClicked => AddTag(s, s.input)
    case RemoveClicked(tag) => s.(tags := RemoveTag(s.tags, tag))
  }

  /** Adding text that is empty or only white space changes nothing, and in
      particular leaves the typed text in place. */
  lemma AddBlankIsNoOp(s: TagState, tag: string)
    requires AllSpace(tag, JavaScript)
    ensures AddTag(s, tag) == s
  {
    var lead, trail := TrimShape(tag, JavaScript);
    var trimmed := Trim(tag, JavaScript);
    assert forall i :: 0 <= i < |trimmed| ==> trimmed[i] == tag[|lead| + i];
  }

  /** Conversely, text with a visible character always yields a non-empty
      trimmed tag, so only duplicates are refused. */
  lemma AddVisibleAppendsOrRefuses(s: TagState, tag: string)
    requires !AllSpace(tag, JavaScript)
    ensures var trimmed := Trim(tag, JavaScript);
            && trimmed != []
            && (trimmed in s.tags <==> AddTag(s, tag) == s)
  {
    var lead, trail := TrimShape(tag, JavaScript);
    var trimmed := Trim(tag, JavaScript);
    if trimmed == [] {
      forall i | 0 <= i < |tag|
        ensures IsSpace(tag[i], JavaScript)
      {
        if i < |lead| {
          assert tag[i] == lead[i];
        } else {
          assert tag[i] == trail[i - |lead|];
        }
      }
    }
    if trimmed !in s.tags {
      assert |AddTag(s, tag).tags| == |s.tags| + 1;
    }
  }

  /** A successful add appends exactly the trimmed text, keeps every earlier
      tag in place and clears the field; the new tag neither starts nor ends
      with white space. */
  lemma AddAppendsTrimmed(s: TagState, tag: string)
    requires AddTag(s, tag) != s
    ensures var r := AddTag(s, tag);
            && |r.tags| == |s.tags| + 1
            && r.tags[..|s.tags|] == s.tags
            && r.tags[|s.tags|] == Trim(tag, JavaScript)
            && !IsSpace(r.tags[|s.tags|][0], JavaScript)
            && !IsSpace(r.tags[|s.tags|][|r.tags[|s.tags|]| - 1], JavaScript)
            && r.input == []
  {
    var lead, trail := TrimShape(tag, JavaScript);
    var r := AddTag(s, tag);
    assert r.tags == s.tags + [Trim(tag, JavaScript)];
  }

  /** Adding never introduces a duplicate. */
  lemma AddKeepsNoDuplicates(s: TagState, tag: string)
    requires NoDuplicates(s.tags)
    ensures NoDuplicates(AddTag(s, tag).tags)
  {
    var r := AddTag(s, tag);
    if r != s {
      var trimmed := Trim(tag, JavaScript);
      assert r.tags == s.tags + [trimmed];
      forall i, j | 0 <= i < j < |r.tags|
        ensures r.tags[i] != r.tags[j]
      {
        if j == |s.tags| {
          assert r.tags[i] == s.tags[i];
          assert s.tags[i] in s.tags;
        }
      }
    }
  }

  /** Enter and "," add the typed text, exactly like the Add button. */
  lemma EnterAndCommaAdd(s: TagState)
    ensures Step(s, KeyDown(Enter)) == AddTag(s, s.input)
    ensures Step(s, KeyDown(Comma)) == AddTag(s, s.input)
    ensures Step(s, AddClicked) == AddTag(s, s.input)
  {
  }

  /** Backspace on an empty field with at least one tag removes exactly the
      last tag; in every other case it changes nothing. */
  lemma BackspaceRemovesLast(s: TagState)
    ensures var r := Step(s, KeyDown(Backspace));
            if s.input == [] && s.tags != [] then
              r.input == s.input && s.tags == r.tags + [s.tags[|s.tags| - 1]]
            else r == s
  {
    if s.input == [] && s.tags != [] {
      assert s.tags == s.tags[..|s.tags| - 1] + [s.tags[|s.tags| - 1]];
    }
  }

  /** Removing keeps the relative order of the other tags: filtering a
      concatenation filters each part. */
  lemma {:induction false} RemoveTagDistributes(a: seq<string>, b: seq<string>, tag: string)
    ensures RemoveTag(a + b, tag) == RemoveTag(a, tag) + RemoveTag(b, tag)
    decreases |a|
  {
    if a == [] {
      assert a + b == b;
    } else {
      assert (a + b)[1..] == a[1..] + b;
      RemoveTagDistributes(a[1..], b, tag);
    }
  }

  /** Removing a tag that is not present changes nothing, and removing twice
      is removing once. */
  lemma {:induction false} RemoveTagIdempotent(tags: seq<string>, tag: string)
    ensures tag !in tags ==> RemoveTag(tags, tag) == tags
    ensures RemoveTag(RemoveTag(tags, tag), tag) == RemoveTag(tags, tag)
    decreases |tags|
  {
    if tags != [] {
      RemoveTagIdempotent(tags[1..], tag);
      if tag !in tags {
        assert tag !in tags[1..];
        assert tags == [tags[0]] + tags[1..];
      }
      var once := RemoveTag(tags, tag);
      if tags[0] != tag {
        assert once == [tags[0]] + RemoveTag(tags[1..], tag);
        assert once[1..] == RemoveTag(tags[1..], tag);
      }
    }
  }

  /** Removing keeps a duplicate-free list duplicate-free. */
  lemma RemoveKeepsNoDuplicates(tags: seq<string>, tag: string)
    requires NoDuplicates(tags)
    ensures NoDuplicates(RemoveTag(tags, tag))
  {
    var r := RemoveTag(tags, tag);
    forall i, j | 0 <= i < j < |r|
      ensures r[i] != r[j]
    {
      if r[i] == r[j] {
        assert multiset(r)[r[i]] >= 2 by {
          assert r == r[..i] + [r[i]] + r[i + 1..j] + [r[j]] + r[j + 1..];
        }
        assert multiset(tags)[r[i]] >= 2;
        DuplicateOfCount(tags, r[i]);
      }
    }
  }

  /** An element occurring twice sits at two different indices. */
  lemma {:induction false} DuplicateOfCount(tags: seq<string>, x: string)
    requires NoDuplicates(tags)
    ensures multiset(tags)[x] <= 1
    decreases |tags|
  {
    if tags != [] {
      assert tags == [tags[0]] + tags[1..];
      assert NoDuplicates(tags[1..]) by {
        forall i, j | 0 <= i < j < |tags[1..]|
          ensures tags[1..][i] != tags[1..][j]
        {
          assert tags[1..][i] == tags[i + 1] && tags[1..][j] == tags[j + 1];
        }
      }
      DuplicateOfCount(tags[1..], x);
      if tags[0] == x {
        assert x !in tags[1..] by {
          forall k | 0 <= k < |tags[1..]|
            ensures tags[1..][k] != x
          {
            assert tags[1..][k] == tags[k + 1];
          }
        }
      }
    }
  }

  /** Every event keeps the tag list duplicate-free. */
  lemma StepKeepsNoDuplicates(s: TagState, e: Event)
    requires NoDuplicates(s.tags)
    ensures NoDuplicates(Step(s, e).tags)
  {
    match e
    case KeyDown(k) =>
      if k == Enter || k == Comma {
        AddKeepsNoDuplicates(s, s.input);
      }
    case Typed(_) =>
    case AddClicked => AddKeepsNoDuplicates(s, s.input);
    case RemoveClicked(tag) => RemoveKeepsNoDuplicates(s.tags, tag);
  }
}
