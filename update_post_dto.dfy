/** `UpdatePostDto` of todo-service/src/posts/dto/update-post.dto.ts: a partial patch. */
module UpdatePostDto {
  import opened Wrappers
  import opened ClassValidator

  datatype UpdatePostBody = UpdatePostBody(title: Field, content: Field)

  /** A patch that passed validation; `None` marks a field the body left out. */
  datatype UpdatePost = UpdatePost(title: Option<string>, content: Option<string>)

  /** The decorators on the two optional fields, as declared. */
  predicate IsValid(b: UpdatePostBody)
  {
    && Optional(b.title, IsString(b.title) && MinLength(b.title, 3))
    && Optional(b.content, IsString(b.content))
  }

  function FieldValue(f: Field): Option<string>
  {
    if f.Str? then Some(f.s) else None
  }

  /**
   * What validation lets through: each field absent or a string, a present
   * title of three or more characters, and any content string, even "".
   */
  function Validate(b: UpdatePostBody): (r: Option<UpdatePost>)
    ensures r.Some? <==>
      && (b.title.Missing? || (b.title.Str? && |b.title.s| >= 3))
      && (b.content.Missing? || b.content.Str?)
    ensures r.Some? ==> r.value.title.None? == b.title.Missing? && r.value.content.None? == b.content.Missing?
    ensures r.Some? && r.value.title.Some? ==> b.title == Str(r.value.title.value)
    ensures r.Some? && r.value.content.Some? ==> b.content == Str(r.value.content.value)
  {
    if IsValid(b) then Some(UpdatePost(FieldValue(b.title), FieldValue(b.content))) else None
  }

  lemma Examples(title: string, content: string)
    ensures Validate(UpdatePostBody(Missing, Missing)) == Some(UpdatePost(None, None))
    ensures |title| < 3 ==> Validate(UpdatePostBody(Str(title), Missing)).None?
    ensures |title| >= 3 ==> Validate(UpdatePostBody(Str(title), Missing)) == Some(UpdatePost(Some(title), None))
    ensures Validate(UpdatePostBody(Missing, Str(content))) == Some(UpdatePost(None, Some(content)))
    ensures Validate(UpdatePostBody(Missing, Str(""))).Some?
  {
  }
}
