/**
 * The "Add New Book" form: two text fields, a submit guard and a reset.
 * Submitting hands the title and author to the page's add handler.
 */
module AddBookForm {
  import opened Wrappers

  /** The `maxLength` of the title input. */
  const TitleMaxLength: nat := 200
  /** The `maxLength` of the author input. */
  const AuthorMaxLength: nat := 100

  /** The arguments of one `onAdd(title, author)` call. */
  datatype AddRequest = AddRequest(title: string, author: string)

  /** The submit guard `title && author`: both strings are truthy, that is non-empty. */
  predicate Accepts(title: string, author: string) {
    title != "" && author != ""
  }

  /** The button's `disabled={!title || !author}`. */
  function SubmitDisabled(title: string, author: string): bool {
    title == "" || author == ""
  }

  /** The button is disabled exactly when the submit guard would reject. */
  lemma DisabledIffRejected(title: string, author: string)
    ensures SubmitDisabled(title, author) <==> !Accepts(title, author)
  {
  }

  /** What an input with `maxLength` holds after the user proposes `value`: the value, cut to the limit. */
  function WithinMaxLength(value: string, maxLength: nat): (r: string)
    ensures |r| <= maxLength
    ensures |r| <= |value| && r == value[..|r|]
    ensures |value| <= maxLength ==> r == value
    ensures |value| > maxLength ==> |r| == maxLength
  {
    if |value| <= maxLength then value else value[..maxLength]
  }

  class Form {
    var title: string
    var author: string

    /** The inputs never hold more than their `maxLength`. */
    ghost predicate Valid()
      reads this
    {
      |title| <= TitleMaxLength && |author| <= AuthorMaxLength
    }

    /** Both fields start empty. */
    constructor ()
      ensures title == "" && author == ""
      ensures Valid()
    {
      title := "";
      author := "";
    }

    /** The title input's `onChange`. */
    method ChangeTitle(value: string)
      modifies this
      ensures title == WithinMaxLength(value, TitleMaxLength)
      ensures author == old(author)
      ensures old(Valid()) ==> Valid()
    {
      title := WithinMaxLength(value, TitleMaxLength);
    }

    /** The author input's `onChange`. */
    method ChangeAuthor(value: string)
      modifies this
      ensures author == WithinMaxLength(value, AuthorMaxLength)
      ensures title == old(title)
      ensures old(Valid()) ==> Valid()
    {
      author := WithinMaxLength(value, AuthorMaxLength);
    }

    /**
     * `handleSubmit`: when both fields are filled, the current title and author
     * go to `onAdd` (returned here) and both fields are cleared; otherwise
     * nothing is sent and nothing changes.
     */
    method HandleSubmit() returns (sent: Option<AddRequest>)
      modifies this
      ensures sent.Some? <==> Accepts(old(title), old(author))
      ensures sent.Some? ==> sent.value == AddRequest(old(title), old(author)) && title == "" && author == ""
      ensures sent.None? ==> title == old(title) && author == old(author)
      ensures old(Valid()) ==> Valid()
    {
      if title != "" && author != "" {
        sent := Some(AddRequest(title, author));
        title := "";
        author := "";
      } else {
        sent := None;
      }
    }
  }
}
