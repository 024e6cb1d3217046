/**
 * The records of the weekly report editor (weekly_report/report_app.py): `WeeklyPost`,
 * `WeeklyReport`, and the coercion `validate_boolean` applies to the two selection
 * flags before pydantic stores them.
 */
module WeeklyPost {
  import opened Text

  /** `WeeklyPost`: one analysed e-mail as it may appear in the report. */
  datatype Post = Post(
    emailId: string,
    postDatetime: string,
    titleCn: string,
    titleEn: string,
    contentCn: string,
    contentEn: string,
    labels: seq<string>,
    links: seq<string>,
    userInputCn: string,
    userInputEn: string,
    mainImage: string,
    mainLink: string,
    wechatSelected: bool,
    mediumSelected: bool)

  /** `WeeklyReport`: the week's posts, in the editor's order. */
  datatype Report = Report(startDate: string, endDate: string, weekNumber: int, summary: string, posts: seq<Post>)

  /** The raw values a selection flag can arrive as (decoded JSON or form input). */
  datatype Raw = Str(s: string) | Bool(b: bool) | Int(i: int) | Null | List(items: seq<Raw>)

  /** Python's `bool(v)`. */
  predicate Truthy(v: Raw)
  {
    match v
    case Str(s) => s != ""
    case Bool(b) => b
    case Int(i) => i != 0
    case Null => false
    case List(items) => items != []
  }

  /** `WeeklyPost.validate_boolean`: a string is true when it reads "true" ignoring case; anything else by its truth value. */
  function ValidateBoolean(v: Raw): (r: bool)
    ensures v.Bool? ==> r == v.b
    ensures v.Null? ==> !r
  {
    if v.Str? then Lower(v.s) == "true" else Truthy(v)
  }

  lemma LowerCharIs(c: char, l: char)
    requires 'a' <= l <= 'z'
    ensures LowerChar(c) == l <==> c == l || c as int == l as int - 32
  {
  }

  /** The strings taken as true are exactly the sixteen spellings of "true" in mixed case. */
  lemma TrueSpellings(s: string)
    ensures ValidateBoolean(Str(s)) <==>
      |s| == 4 && s[0] in "tT" && s[1] in "rR" && s[2] in "uU" && s[3] in "eE"
  {
    if |s| == 4 {
      LowerCharIs(s[0], 't');
      LowerCharIs(s[1], 'r');
      LowerCharIs(s[2], 'u');
      LowerCharIs(s[3], 'e');
      assert Lower(s) == "true" <==>
        LowerChar(s[0]) == 't' && LowerChar(s[1]) == 'r' && LowerChar(s[2]) == 'u' && LowerChar(s[3]) == 'e';
    }
  }

  lemma LowerTwice(s: string)
    ensures Lower(Lower(s)) == Lower(s)
  {
  }

  /** Case does not matter to a string flag. */
  lemma CaseIgnored(s: string)
    ensures ValidateBoolean(Str(s)) == ValidateBoolean(Str(Lower(s)))
  {
    LowerTwice(s);
  }

  /** Unlike `bool(v)`, a non-empty string such as "false" is false. */
  lemma FalseStringIsFalse()
    ensures Truthy(Str("false")) && !ValidateBoolean(Str("false"))
  {
    TrueSpellings("false");
  }

  /** Coercing a coerced flag again changes nothing. */
  lemma ValidateIdempotent(v: Raw)
    ensures ValidateBoolean(Bool(ValidateBoolean(v))) == ValidateBoolean(v)
  {
  }
}
