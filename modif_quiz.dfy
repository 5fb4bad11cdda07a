/**
  How the quiz editor page (src/pages/ModifQuiz.tsx) finds the id of the quiz it edits: a numeric
  `id` query parameter wins, otherwise the first numeric segment of the URL path is used.
*/
module ModifQuiz {
  import opened QuizTypes
  import opened Text

  /** The position of the first slash of `s`, or `|s|` when there is none. */
  function SlashIndex(s: string): (i: nat)
    ensures i <= |s|
    ensures i < |s| ==> s[i] == '/'
    ensures forall j :: 0 <= j < i ==> s[j] != '/'
  {
    if s == [] || s[0] == '/' then 0 else 1 + SlashIndex(s[1..])
  }

  /** `s.split('/')`: the pieces between slashes, empty ones included; there is always at least one. */
  function Split(s: string): (r: seq<string>)
    ensures |r| >= 1
    ensures forall p :: p in r ==> '/' !in p
    decreases |s|
  {
    var i := SlashIndex(s);
    if i == |s| then [s] else [s[..i]] + Split(s[i + 1..])
  }

  /** The pieces glued back together with a slash between each two. */
  function Join(parts: seq<string>): string
    requires |parts| >= 1
  {
    if |parts| == 1 then parts[0] else parts[0] + "/" + Join(parts[1..])
  }

  /** A slash after slash-free text is the first slash. */
  lemma SlashIndexAfter(x: string, y: string)
    requires '/' !in x
    ensures SlashIndex(x + "/" + y) == |x|
  {
    var s := x + "/" + y;
    assert forall j :: 0 <= j < |x| ==> s[j] == x[j];
    assert s[|x|] == '/';
  }

  /** The first slash of a text is also the first slash of that text with more after it. */
  lemma SlashIndexPrefix(x: string, y: string)
    requires SlashIndex(x) < |x|
    ensures SlashIndex(x + y) == SlashIndex(x)
  {
    var s := x + y;
    assert forall j :: 0 <= j < |x| ==> s[j] == x[j];
  }

  /** A slash splits a path in two: the pieces of a path are those before the slash and those after. */
  lemma {:induction false} SplitConcat(x: string, y: string)
    ensures Split(x + "/" + y) == Split(x) + Split(y)
    decreases |x|
  {
    var s := x + "/" + y;
    var i := SlashIndex(x);
    if i == |x| {
      SlashIndexAfter(x, y);
      assert s[..|x|] == x && s[|x| + 1..] == y;
    } else {
      SlashIndexPrefix(x, "/" + y);
      assert s == x + ("/" + y);
      assert s[..i] == x[..i];
      assert s[i + 1..] == x[i + 1..] + "/" + y;
      SplitConcat(x[i + 1..], y);
    }
  }

  /** Splitting and joining again gives back the path. */
  lemma {:induction false} JoinSplit(s: string)
    ensures Join(Split(s)) == s
    decreases |s|
  {
    var i := SlashIndex(s);
    if i < |s| {
      var rest := s[i + 1..];
      calc {
        Join(Split(s));
        Join([s[..i]] + Split(rest));
        { JoinCons(s[..i], Split(rest)); }
        s[..i] + "/" + Join(Split(rest));
        { JoinSplit(rest); }
        s[..i] + "/" + rest;
        s;
      }
    }
  }

  lemma JoinCons(x: string, parts: seq<string>)
    requires |parts| >= 1
    ensures Join([x] + parts) == x + "/" + Join(parts)
  {
    assert ([x] + parts)[1..] == parts;
  }

  /** Joining pieces without slashes and splitting again gives back the pieces. */
  lemma {:induction false} SplitJoin(parts: seq<string>)
    requires |parts| >= 1
    requires forall i :: 0 <= i < |parts| ==> '/' !in parts[i]
    ensures Split(Join(parts)) == parts
  {
    if |parts| == 1 {
      assert SlashIndex(parts[0]) == |parts[0]|;
    } else {
      SplitJoin(parts[1..]);
      SplitConcat(parts[0], Join(parts[1..]));
      assert SlashIndex(parts[0]) == |parts[0]|;
      assert parts == [parts[0]] + parts[1..];
    }
  }

  /** `filter(Boolean)`: the non-empty pieces, in order. */
  function NonEmpty(parts: seq<string>): (r: seq<string>)
    ensures forall i :: 0 <= i < |r| ==> r[i] != []
  {
    if parts == [] then []
    else (if parts[0] == [] then [] else [parts[0]]) + NonEmpty(parts[1..])
  }

  /** A single piece is kept exactly when it is not empty. */
  lemma NonEmptyOfOne(p: string)
    ensures NonEmpty([p]) == (if p == [] then [] else [p])
  {
    assert [p][1..] == [];
  }

  /** The kept pieces are exactly the non-empty pieces. */
  lemma {:induction false} NonEmptyMembers(parts: seq<string>)
    ensures forall p :: p in NonEmpty(parts) <==> p in parts && p != []
  {
    if parts != [] {
      NonEmptyMembers(parts[1..]);
      assert forall p :: p in parts <==> p == parts[0] || p in parts[1..];
    }
  }

  lemma {:induction false} NonEmptyConcat(a: seq<string>, b: seq<string>)
    ensures NonEmpty(a + b) == NonEmpty(a) + NonEmpty(b)
  {
    if a == [] {
      assert a + b == b;
    } else {
      var ab := a + b;
      assert ab[0] == a[0] && ab[1..] == a[1..] + b;
      var head: seq<string> := if a[0] == [] then [] else [a[0]];
      calc {
        NonEmpty(ab);
        head + NonEmpty(a[1..] + b);
        { NonEmptyConcat(a[1..], b); }
        head + (NonEmpty(a[1..]) + NonEmpty(b));
        (head + NonEmpty(a[1..])) + NonEmpty(b);
      }
    }
  }

  /** `pathname.split('/').filter(Boolean)`. */
  function Segments(pathname: string): (r: seq<string>)
    ensures forall p :: p in r <==> p in Split(pathname) && p != []
    ensures forall k :: 0 <= k < |r| ==> r[k] != [] && '/' !in r[k]
  {
    NonEmptyMembers(Split(pathname));
    NonEmpty(Split(pathname))
  }

  /** The empty path is one empty piece. */
  lemma SplitEmpty()
    ensures Split([]) == [[]]
  {
  }

  /** A leading slash adds no segment. */
  lemma LeadingSlashIgnored(y: string)
    ensures Segments("/" + y) == Segments(y)
  {
    SplitEmpty();
    SplitConcat([], y);
    assert [] + "/" + y == "/" + y;
    var parts := Split("/" + y);
    assert parts == [[]] + Split(y);
    assert parts[1..] == Split(y);
  }

  /** A trailing slash adds no segment. */
  lemma TrailingSlashIgnored(x: string)
    ensures Segments(x + "/") == Segments(x)
  {
    SplitEmpty();
    SplitConcat(x, []);
    assert x + "/" + [] == x + "/";
    NonEmptyConcat(Split(x), [[]]);
    assert NonEmpty([[]]) == [];
    assert NonEmpty(Split(x)) + [] == NonEmpty(Split(x));
  }

  /** A doubled slash adds no segment. */
  lemma DoubledSlashIgnored(x: string, y: string)
    ensures Segments(x + "//" + y) == Segments(x + "/" + y)
  {
    SplitConcat(x, "/" + y);
    assert x + "/" + ("/" + y) == x + "//" + y;
    SplitConcat(x, y);
    NonEmptyConcat(Split(x), Split("/" + y));
    NonEmptyConcat(Split(x), Split(y));
    LeadingSlashIgnored(y);
  }

  /** The position of the first all-digit segment, or `|segments|` when there is none. */
  function FirstNumeric(segments: seq<string>): (i: nat)
    ensures i <= |segments|
    ensures i < |segments| ==> IsAllDigits(segments[i])
    ensures forall j :: 0 <= j < i ==> !IsAllDigits(segments[j])
  {
    if segments == [] then 0
    else if IsAllDigits(segments[0]) then 0
    else 1 + FirstNumeric(segments[1..])
  }

  /** The id of the quiz: the `id` query parameter when it is one or more digits and nothing else;
      otherwise the first path segment of that form; otherwise none. */
  function QuizId(queryId: Option<string>, pathname: string): (r: Option<string>)
    ensures r.Some? ==> IsAllDigits(r.value)
    ensures queryId.Some? && IsAllDigits(queryId.value) ==> r == queryId
    ensures !(queryId.Some? && IsAllDigits(queryId.value)) ==>
      && (r.None? <==> forall s :: s in Segments(pathname) ==> !IsAllDigits(s))
      && (r.Some? ==> r.value == Segments(pathname)[FirstNumeric(Segments(pathname))])
  {
    if queryId.Some? && IsAllDigits(queryId.value) then queryId
    else
      var segments := Segments(pathname);
      var i := FirstNumeric(segments);
      if i < |segments| then Some(segments[i]) else None
  }

  /** An id found in the path is one of the pieces between its slashes. */
  lemma QuizIdFromPathIsSegment(pathname: string)
    requires QuizId(None, pathname).Some?
    ensures QuizId(None, pathname).value in Split(pathname)
  {
    var segments := Segments(pathname);
    var i := FirstNumeric(segments);
    NonEmptyMembers(Split(pathname));
  }

  /** A path that starts with a non-numeric segment followed by a numeric one, such as `/quiz/1/edit`,
      gives that numeric segment, whatever follows it. */
  lemma SecondSegmentNumeric(a: string, n: string, rest: string)
    requires '/' !in a && '/' !in n
    requires a != [] && !IsAllDigits(a) && IsAllDigits(n)
    ensures QuizId(None, "/" + a + "/" + n + "/" + rest) == Some(n)
  {
    var path := "/" + a + "/" + n + "/" + rest;
    SplitEmpty();
    SplitNoSlash(a);
    SplitNoSlash(n);
    assert "/" + a == [] + "/" + a;
    SplitConcat([], a);
    SplitConcat("/" + a, n);
    SplitConcat("/" + a + "/" + n, rest);
    assert Split(path) == [[], a, n] + Split(rest);
    NonEmptyConcat([[], a, n], Split(rest));
    NonEmptyOfThree(a, n);
    assert FirstNumeric(Segments(path)) == 1;
  }

  lemma SplitNoSlash(p: string)
    requires '/' !in p
    ensures Split(p) == [p]
  {
    assert SlashIndex(p) == |p|;
  }

  lemma NonEmptyOfThree(a: string, n: string)
    requires a != [] && n != []
    ensures NonEmpty([[], a, n]) == [a, n]
  {
    var empty: string := [];
    assert [n][1..] == [];
    assert NonEmpty([n]) == [n];
    assert [a, n][1..] == [n];
    assert NonEmpty([a, n]) == [a, n];
    assert [empty, a, n][1..] == [a, n];
  }

  /** The example given in the page: `/quiz/1/edit` gives "1". */
  lemma QuizIdExample()
    ensures QuizId(None, "/quiz/1/edit") == Some("1")
  {
    var a, n, rest := "quiz", "1", "edit";
    assert !IsDigit(a[0]);
    assert "/quiz/1/edit" == "/" + a + "/" + n + "/" + rest;
    SecondSegmentNumeric(a, n, rest);
  }
}
