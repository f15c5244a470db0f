/** The runtime shape checks of src/utils/typeguards.ts: each guard accepts a
    non-null object that has every one of a fixed set of keys. */
module TypeGuards {
  import opened JsValues

  const TopicKeys: set<string> := {"slug", "description"}

  const ArticleKeys: set<string> :=
    {"author", "title", "article_id", "body", "topic", "created_at", "votes", "article_img_url"}

  const ArticleWithCommentCountKeys: set<string> :=
    {"author", "title", "article_id", "comment_count", "topic", "created_at", "votes", "article_img_url"}

  const CommentKeys: set<string> :=
    {"author", "body", "comment_id", "votes", "article_id", "created_at"}

  /** The guards' common test: an object, not null, that has all of `keys`. */
  predicate HasAllKeys(v: JsValue, keys: set<string>) {
    v.Obj? && keys <= v.props.Keys
  }

  function IsTopic(v: JsValue): (r: bool)
    ensures r <==> HasAllKeys(v, TopicKeys)
  {
    TypeofObject(v) && v != Null
    && HasKey(v, "slug")
    && HasKey(v, "description")
  }

  function IsArticle(v: JsValue): (r: bool)
    ensures r <==> HasAllKeys(v, ArticleKeys)
  {
    TypeofObject(v) && v != Null
    && HasKey(v, "author")
    && HasKey(v, "title")
    && HasKey(v, "article_id")
    && HasKey(v, "body")
    && HasKey(v, "topic")
    && HasKey(v, "created_at")
    && HasKey(v, "votes")
    && HasKey(v, "article_img_url")
  }

  function IsArticleWithCommentCount(v: JsValue): (r: bool)
    ensures r <==> HasAllKeys(v, ArticleWithCommentCountKeys)
  {
    TypeofObject(v) && v != Null
    && HasKey(v, "author")
    && HasKey(v, "title")
    && HasKey(v, "article_id")
    && HasKey(v, "comment_count")
    && HasKey(v, "topic")
    && HasKey(v, "created_at")
    && HasKey(v, "votes")
    && HasKey(v, "article_img_url")
  }

  function IsComment(v: JsValue): (r: bool)
    ensures r <==> HasAllKeys(v, CommentKeys)
  {
    TypeofObject(v) && v != Null
    && HasKey(v, "author")
    && HasKey(v, "body")
    && HasKey(v, "comment_id")
    && HasKey(v, "votes")
    && HasKey(v, "article_id")
    && HasKey(v, "created_at")
  }

  /** Null, undefined, primitives and Dates are rejected by every guard. */
  lemma GuardsRejectNonPlainObjects(v: JsValue)
    requires !v.Obj?
    ensures !IsTopic(v) && !IsArticle(v) && !IsArticleWithCommentCount(v) && !IsComment(v)
  {
  }

  /** Only the key set matters: two objects with the same keys, whatever
      their values, are accepted or rejected alike. */
  lemma GuardsIgnoreValues(p: Row, q: Row)
    requires p.Keys == q.Keys
    ensures IsTopic(Obj(p)) == IsTopic(Obj(q))
    ensures IsArticle(Obj(p)) == IsArticle(Obj(q))
    ensures IsArticleWithCommentCount(Obj(p)) == IsArticleWithCommentCount(Obj(q))
    ensures IsComment(Obj(p)) == IsComment(Obj(q))
  {
  }

  /** Adding keys never turns an accepted object into a rejected one. */
  lemma GuardsMonotone(p: Row, q: Row)
    requires p.Keys <= q.Keys
    ensures IsTopic(Obj(p)) ==> IsTopic(Obj(q))
    ensures IsArticle(Obj(p)) ==> IsArticle(Obj(q))
    ensures IsArticleWithCommentCount(Obj(p)) ==> IsArticleWithCommentCount(Obj(q))
    ensures IsComment(Obj(p)) ==> IsComment(Obj(q))
  {
  }

  /** The two article guards differ in exactly one key: the plain one asks for
      `body`, the one for listings asks for `comment_count` instead. */
  lemma ArticleGuardsDiffer(v: JsValue)
    requires v.Obj? && "body" in v.props && "comment_count" in v.props
    ensures IsArticle(v) <==> IsArticleWithCommentCount(v)
  {
  }

  /** A listed article (every listing key, no body) passes the listing guard
      and fails the plain one. */
  lemma ListedArticleWithoutBody(v: JsValue)
    requires v.Obj? && ArticleWithCommentCountKeys <= v.props.Keys && "body" !in v.props
    ensures IsArticleWithCommentCount(v) && !IsArticle(v)
  {
  }
}
