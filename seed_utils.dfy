/** The seed-data transformers of src/db/seeds/utils.ts. Records are plain
    objects, seen through their own properties (`Row`). */
module SeedUtils {
  import opened JsValues

  /** `new Date(v)`: a Date built from a Date copies its time value. */
  function NewDate(v: JsValue): (d: JsValue)
    ensures d.Date? && Truthy(d)
    ensures v.Date? ==> d == v
  {
    if v.Date? then v else Date(v)
  }

  /** convertTimestampToDate: a truthy `created_at` becomes a Date of the same
      value, a falsy one (absent, undefined, null, 0, '', false) is dropped, and
      every other key is copied unchanged. */
  function ConvertTimestampToDate(record: Row): (r: Row)
    ensures forall k :: k != "created_at" ==> (k in r <==> k in record)
    ensures forall k :: k != "created_at" && k in record ==> r[k] == record[k]
    ensures "created_at" in r <==> Truthy(Get(record, "created_at"))
    ensures "created_at" in r ==> r["created_at"] == NewDate(record["created_at"])
  {
    var createdAt := Get(record, "created_at");
    var otherProperties := record - {"created_at"};
    if !Truthy(createdAt) then otherProperties
    else map["created_at" := NewDate(createdAt)] + otherProperties
  }

  /** Converting an already converted record changes nothing more. */
  lemma ConvertIdempotent(record: Row)
    ensures ConvertTimestampToDate(ConvertTimestampToDate(record)) == ConvertTimestampToDate(record)
  {
  }

  /** The key under which createRef files a record. */
  function RefKey(element: Row, key: string): string {
    PropertyKey(Get(element, key))
  }

  /** No element of `arr` after `i` and before `upto` is filed under the same
      key as `arr[i]`. */
  predicate LastWithKey(arr: seq<Row>, key: string, i: int, upto: int)
    requires 0 <= i < |arr| && upto <= |arr|
  {
    forall j :: i < j < upto ==> RefKey(arr[j], key) != RefKey(arr[i], key)
  }

  /** The table the reducer of createRef holds after the elements of `arr`:
      each element in turn files its `value` under its `key`. */
  function RefAfter(arr: seq<Row>, key: string, value: string): map<string, JsValue>
    decreases |arr|
  {
    if arr == [] then map[]
    else RefAfter(arr[..|arr| - 1], key, value)[RefKey(arr[|arr| - 1], key) := Get(arr[|arr| - 1], value)]
  }

  /** The table's keys are exactly the keys of the elements. */
  lemma {:induction false} RefAfterKeys(arr: seq<Row>, key: string, value: string)
    ensures RefAfter(arr, key, value).Keys == set i | 0 <= i < |arr| :: RefKey(arr[i], key)
    decreases |arr|
  {
    if arr != [] {
      var init := arr[..|arr| - 1];
      RefAfterKeys(init, key, value);
      var s := set i | 0 <= i < |arr| :: RefKey(arr[i], key);
      var t := set i | 0 <= i < |init| :: RefKey(init[i], key);
      assert s == t + {RefKey(arr[|arr| - 1], key)} by {
        forall k | k in s ensures k in t + {RefKey(arr[|arr| - 1], key)} {
          var i :| 0 <= i < |arr| && k == RefKey(arr[i], key);
          if i < |init| {
            assert init[i] == arr[i];
          }
        }
        forall k | k in t ensures k in s {
          var i :| 0 <= i < |init| && k == RefKey(init[i], key);
          assert arr[i] == init[i];
        }
      }
    }
  }

  /** Of several elements with the same key, the last one's value is kept. */
  lemma {:induction false} RefAfterLastWins(arr: seq<Row>, key: string, value: string, i: int)
    requires 0 <= i < |arr| && LastWithKey(arr, key, i, |arr|)
    ensures RefKey(arr[i], key) in RefAfter(arr, key, value)
    ensures RefAfter(arr, key, value)[RefKey(arr[i], key)] == Get(arr[i], value)
    decreases |arr|
  {
    var init := arr[..|arr| - 1];
    if i < |arr| - 1 {
      assert init[i] == arr[i];
      assert LastWithKey(init, key, i, |init|) by {
        forall j | i < j < |init| ensures RefKey(init[j], key) != RefKey(init[i], key) {
          assert init[j] == arr[j];
        }
      }
      assert RefKey(arr[|arr| - 1], key) != RefKey(arr[i], key);
      RefAfterLastWins(init, key, value, i);
    }
  }

  /** createRef: a lookup table from each element's `key` to its `value`.
      Its keys are exactly the elements' keys, and when several elements share
      a key the last one in array order wins. */
  method CreateRef(arr: seq<Row>, key: string, value: string) returns (ref: map<string, JsValue>)
    ensures ref.Keys == set i | 0 <= i < |arr| :: RefKey(arr[i], key)
    ensures forall i :: 0 <= i < |arr| && LastWithKey(arr, key, i, |arr|) ==> ref[RefKey(arr[i], key)] == Get(arr[i], value)
  {
    ref := map[];
    var n := 0;
    while n < |arr|
      invariant 0 <= n <= |arr|
      invariant ref == RefAfter(arr[..n], key, value)
    {
      assert arr[..n + 1][..n] == arr[..n];
      ref := ref[RefKey(arr[n], key) := Get(arr[n], value)];
      n := n + 1;
    }
    assert arr[..n] == arr;
    RefAfterKeys(arr, key, value);
    forall i | 0 <= i < |arr| && LastWithKey(arr, key, i, |arr|)
      ensures ref[RefKey(arr[i], key)] == Get(arr[i], value)
    {
      RefAfterLastWins(arr, key, value, i);
    }
  }

  /** One comment of formatComments: `created_by` becomes `author`,
      `belongs_to` is resolved to `article_id`, both source keys are dropped,
      and the timestamp is converted. The rest of the comment is spread last,
      so an `author` or `article_id` it already carries wins over the derived
      value. */
  function FormatComment(comment: Row, idLookup: map<string, JsValue>): (r: Row)
    ensures "article_id" in r && "author" in r
    ensures "created_by" !in r && "belongs_to" !in r
    ensures r["article_id"] == if "article_id" in comment then comment["article_id"]
                               else Get(idLookup, PropertyKey(Get(comment, "belongs_to")))
    ensures r["author"] == if "author" in comment then comment["author"] else Get(comment, "created_by")
    ensures "created_at" in r <==> Truthy(Get(comment, "created_at"))
    ensures "created_at" in r ==> r["created_at"] == NewDate(comment["created_at"])
    ensures forall k :: k !in {"created_by", "belongs_to", "article_id", "author", "created_at"} ==>
              (k in r <==> k in comment) && (k in comment ==> r[k] == comment[k])
  {
    var createdBy := Get(comment, "created_by");
    var belongsTo := Get(comment, "belongs_to");
    var restOfComment := comment - {"created_by", "belongs_to"};
    var articleId := Get(idLookup, PropertyKey(belongsTo));
    map["article_id" := articleId, "author" := createdBy] + ConvertTimestampToDate(restOfComment)
  }

  /** formatComments: the comments formatted one by one, in order. */
  function FormatComments(comments: seq<Row>, idLookup: map<string, JsValue>): (r: seq<Row>)
    ensures |r| == |comments|
    ensures forall i :: 0 <= i < |comments| ==> r[i] == FormatComment(comments[i], idLookup)
  {
    if comments == [] then []
    else [FormatComment(comments[0], idLookup)] + FormatComments(comments[1..], idLookup)
  }

  /** A comment in the `created_by`/`belongs_to` form (no own `author` or
      `article_id`) whose article title is filed in the lookup comes out with
      the article's id and its creator as author, and neither source field
      left. */
  lemma CreatedByCommentResolved(comment: Row, idLookup: map<string, JsValue>, title: string)
    requires "author" !in comment && "article_id" !in comment
    requires Get(comment, "belongs_to") == Str(title) && title in idLookup
    ensures FormatComment(comment, idLookup)["article_id"] == idLookup[title]
    ensures FormatComment(comment, idLookup)["author"] == Get(comment, "created_by")
    ensures FormatComment(comment, idLookup).Keys * {"created_by", "belongs_to"} == {}
  {
  }

  /** A comment of the declared `Comment` shape carries its own `author` (and
      may carry its own `article_id`): the trailing spread keeps them, so
      `created_by` and the lookup are overridden. */
  lemma TypedCommentKeepsOwnFields(comment: Row, idLookup: map<string, JsValue>)
    requires "author" in comment
    ensures FormatComment(comment, idLookup)["author"] == comment["author"]
    ensures "article_id" in comment ==> FormatComment(comment, idLookup)["article_id"] == comment["article_id"]
  {
  }
}
