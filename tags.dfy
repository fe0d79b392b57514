/** The tag-editing rule shared by the album's edit form and the new-memory form. */
module TagEditing {
  import opened Text
  import opened Lists

  /** A tag that `trim` leaves unchanged. */
  predicate Trimmed(t: string) {
    Trim(t) == t
  }

  ghost predicate AllTrimmed(tags: seq<string>) {
    forall i :: 0 <= i < |tags| ==> Trimmed(tags[i])
  }

  /**
   * `handleAddTag`: the trimmed input is appended when it is non-empty and not yet in the
   * list, and only then is the input cleared. Returns the new tag list and input.
   */
  function AddTag(tags: seq<string>, input: string): (r: (seq<string>, string))
    ensures Trim(input) != [] && Trim(input) !in tags ==> r == (tags + [Trim(input)], "")
    ensures Trim(input) == [] || Trim(input) in tags ==> r == (tags, input)
    ensures NoDuplicates(tags) ==> NoDuplicates(r.0)
    ensures AllTrimmed(tags) ==> AllTrimmed(r.0)
  {
    var t := Trim(input);
    if t != [] && t !in tags then
      TrimIdempotent(input);
      AppendKeeps(tags, t);
      (tags + [t], "")
    else (tags, input)
  }

  /** `handleRemoveTag`: every copy of `tag` goes, every other tag stays, in order. */
  function RemoveTag(tags: seq<string>, tag: string): (r: seq<string>)
    ensures tag !in r
    ensures forall x :: x != tag ==> multiset(r)[x] == multiset(tags)[x]
    ensures IsSubsequence(r, tags)
    ensures NoDuplicates(tags) ==> NoDuplicates(r)
    ensures AllTrimmed(tags) ==> AllTrimmed(r)
  {
    var keep := (x: string) => x != tag;
    FilterSpec(tags, keep);
    var r := Filter(tags, keep);
    SubsequenceNoDuplicates(r, tags);
    SubsequenceAll(r, tags, Trimmed);
    r
  }

  /** Appending a new trimmed tag keeps the list trimmed and duplicate-free. */
  lemma AppendKeeps(tags: seq<string>, t: string)
    requires Trimmed(t) && t !in tags
    ensures NoDuplicates(tags) ==> NoDuplicates(tags + [t])
    ensures AllTrimmed(tags) ==> AllTrimmed(tags + [t])
  {
    var r := tags + [t];
    assert forall i :: 0 <= i < |tags| ==> r[i] == tags[i];
    assert r[|tags|] == t;
  }
}
