/** `check_anti_nsfw`: a proposed new filename is refused when, lower-cased, it contains a
    keyword of some category of the keyword table, unless it contains one of the exception
    keywords, which always wins. */
module AntiNsfw {
  import opened Text

  /** `nsfw_keywords`: categories with their keywords. The table ships empty. */
  const NsfwKeywords: seq<(string, seq<string>)> := []

  /** `exception_keywords` */
  const ExceptionKeywords: seq<string> := ["nxivm", "classroom", "assassination", "geass"]

  /** `keyword.lower() in lower_name` */
  predicate Mentions(lowerName: string, keyword: string) {
    Contains(lowerName, LowerStr(keyword))
  }

  /** Some keyword of the list, lower-cased, occurs in `lowerName`; the keywords are tried in
      order and the first hit ends the search. */
  function AnyMentioned(keywords: seq<string>, lowerName: string): (r: bool)
    ensures r <==> exists j :: 0 <= j < |keywords| && Mentions(lowerName, keywords[j])
    decreases |keywords|
  {
    if |keywords| == 0 then false
    else if Mentions(lowerName, keywords[0]) then true
    else
      var rest := AnyMentioned(keywords[1..], lowerName);
      assert forall j :: 1 <= j < |keywords| ==> keywords[j] == keywords[1..][j - 1];
      rest
  }

  /** Some keyword of some category occurs in `lowerName`. */
  function AnyCategoryMentioned(categories: seq<(string, seq<string>)>, lowerName: string): (r: bool)
    ensures r <==> exists c, j :: 0 <= c < |categories| && 0 <= j < |categories[c].1|
                                  && Mentions(lowerName, categories[c].1[j])
    decreases |categories|
  {
    if |categories| == 0 then false
    else if AnyMentioned(categories[0].1, lowerName) then true
    else
      var rest := AnyCategoryMentioned(categories[1..], lowerName);
      assert forall c :: 1 <= c < |categories| ==> categories[c] == categories[1..][c - 1];
      rest
  }

  /** `check_anti_nsfw` against a given keyword table and exception list: refused exactly when
      no exception keyword occurs and some category keyword does, all compared in lower case. */
  function CheckAntiNsfwWith(newName: string, categories: seq<(string, seq<string>)>, exceptions: seq<string>)
    : (rejected: bool)
    ensures rejected <==>
      (forall j :: 0 <= j < |exceptions| ==> !Mentions(LowerStr(newName), exceptions[j]))
      && (exists c, j :: 0 <= c < |categories| && 0 <= j < |categories[c].1|
                         && Mentions(LowerStr(newName), categories[c].1[j]))
  {
    var lowerName := LowerStr(newName);
    if AnyMentioned(exceptions, lowerName) then false
    else AnyCategoryMentioned(categories, lowerName)
  }

  /** `check_anti_nsfw` with the shipped tables. */
  function CheckAntiNsfw(newName: string): (rejected: bool)
    ensures !rejected
  {
    CheckAntiNsfwWith(newName, NsfwKeywords, ExceptionKeywords)
  }

  /** Whatever keyword table is configured, a name that contains one of the shipped exception
      keywords in any letter case is never refused. */
  lemma ExceptionNamesNeverRejected(categories: seq<(string, seq<string>)>, pre: string, w: string, post: string, k: nat)
    requires k < |ExceptionKeywords| && LowerStr(w) == ExceptionKeywords[k]
    ensures !CheckAntiNsfwWith(pre + w + post, categories, ExceptionKeywords)
  {
    var name := pre + w + post;
    LowerStrConcat(pre + w, post);
    LowerStrConcat(pre, w);
    var e := ExceptionKeywords[k];
    assert LowerStr(e) == e by {
      assert e == "nxivm" || e == "classroom" || e == "assassination" || e == "geass";
    }
    assert OccursAt(LowerStr(name), |pre|, LowerStr(e));
  }
}
