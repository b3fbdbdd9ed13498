/** `PostValidator`: the null and already-published checks on a post. */
module PostValidation {
  import opened Base
  import opened Text
  import opened PostModel

  /** `validateDto`: a missing user or project is an IllegalArgumentException. */
  function ValidateDto<T>(dto: Option<T>): (r: Outcome<Unit>)
    ensures r.Ok? <==> dto.Some?
    ensures r.Thrown? ==> r.exception == IllegalArgument("User or project not found")
  {
    if dto.None? then Thrown(IllegalArgument("User or project not found")) else Ok(Unit)
  }

  /** `validatePost`: the post must exist and must not have a publication time. */
  function ValidatePost(post: Option<Post>, id: int): (r: Outcome<Unit>)
    ensures r.Ok? <==> post.Some? && post.value.publishedAt.None?
    ensures post.None? ==> r == Thrown(IllegalArgument("Post id:" + LongToString(id) + " not found"))
    ensures post.Some? && post.value.publishedAt.Some? ==>
              r == Thrown(IllegalArgument("Post with id:" + LongToString(id) + " already published"))
  {
    if post.None? then Thrown(IllegalArgument("Post id:" + LongToString(id) + " not found"))
    else if post.value.publishedAt.Some? then
      Thrown(IllegalArgument("Post with id:" + LongToString(id) + " already published"))
    else Ok(Unit)
  }

  /** The two messages name the post, and different posts give different messages. */
  lemma ValidatePostMessagesNameThePost(a: int, b: int)
    requires IsLong(a) && IsLong(b) && a != b
    ensures ValidatePost(None, a) != ValidatePost(None, b)
  {
    var ma := "Post id:" + LongToString(a) + " not found";
    var mb := "Post id:" + LongToString(b) + " not found";
    if ma == mb {
      assert |LongToString(a)| == |LongToString(b)|;
      assert LongToString(a) == ma[8..8 + |LongToString(a)|];
      assert LongToString(b) == mb[8..8 + |LongToString(b)|];
      LongToStringInjective(a, b);
    }
  }
}
