/** `CreatePostDto` of todo-service/src/posts/dto/create-post.dto.ts. */
module CreatePostDto {
  import opened Wrappers
  import opened ClassValidator

  datatype CreatePostBody = CreatePostBody(title: Field, content: Field)

  /** A body that passed validation. */
  datatype CreatePost = CreatePost(title: string, content: string)

  /** The decorators on the two fields, as declared. */
  predicate IsValid(b: CreatePostBody)
  {
    && IsString(b.title) && IsNotEmpty(b.title) && MinLength(b.title, 3)
    && IsString(b.content) && IsNotEmpty(b.content)
  }

  /** What validation lets through: a title string of three or more characters and a non-empty content string. */
  function Validate(b: CreatePostBody): (r: Option<CreatePost>)
    ensures r.Some? <==> b.title.Str? && |b.title.s| >= 3 && b.content.Str? && b.content.s != ""
    ensures r.Some? ==> b.title == Str(r.value.title) && b.content == Str(r.value.content)
  {
    if IsValid(b) then Some(CreatePost(b.title.s, b.content.s)) else None
  }

  lemma Rejections(content: Field)
    ensures Validate(CreatePostBody(Str(""), content)).None?
    ensures Validate(CreatePostBody(Str("ab"), content)).None?
    ensures Validate(CreatePostBody(Str("Title"), Str(""))).None?
    ensures Validate(CreatePostBody(NonString, content)).None?
    ensures Validate(CreatePostBody(Str("Title"), NonString)).None?
    ensures Validate(CreatePostBody(Missing, content)).None?
  {
  }
}
