/** `join_json_array`: serialise a list of strings as a JSON array of string
    literals, escaping only '"' and '\'. Its partner here is a reader for exactly
    that output, which recovers the list.
 */
module Json {
  import opened Outcomes

  predicate NeedsEscape(ch: char) {
    ch == '"' || ch == '\\'
  }

  /** Number of characters of `s` that get a backslash. */
  function SpecialCount(s: string): nat {
    if |s| == 0 then 0 else (if NeedsEscape(s[0]) then 1 else 0) + SpecialCount(s[1..])
  }

  function EscapeChar(ch: char): string {
    if ch == '"' then "\\\""
    else if ch == '\\' then "\\\\"
    else [ch]
  }

  /** The escaped text of one element. */
  function Escape(s: string): (r: string)
    ensures |r| == |s| + SpecialCount(s)
  {
    if |s| == 0 then "" else EscapeChar(s[0]) + Escape(s[1..])
  }

  /** One element as a JSON string literal. */
  function Quote(s: string): (r: string)
    ensures |r| == |s| + SpecialCount(s) + 2
    ensures r[0] == '"' && r[|r| - 1] == '"'
  {
    "\"" + Escape(s) + "\""
  }

  /** The elements between the brackets: quoted, separated by single commas. */
  function Items(arr: seq<string>): string {
    if |arr| == 0 then ""
    else if |arr| == 1 then Quote(arr[0])
    else Quote(arr[0]) + "," + Items(arr[1..])
  }

  function JoinJsonArray(arr: seq<string>): (r: string)
    ensures |r| >= 2 && r[0] == '[' && r[|r| - 1] == ']'
    ensures arr == [] ==> r == "[]"
  {
    "[" + Items(arr) + "]"
  }

  /** Total length of the quoted elements. */
  function QuotedLength(arr: seq<string>): nat {
    if |arr| == 0 then 0 else |Quote(arr[0])| + QuotedLength(arr[1..])
  }

  /** The output is the brackets, the quoted elements and exactly `n - 1` commas
      for `n > 0` elements: no other character, no trailing comma. */
  lemma {:induction false} JoinJsonArrayLength(arr: seq<string>)
    ensures |JoinJsonArray(arr)| == 2 + QuotedLength(arr) + (if |arr| == 0 then 0 else |arr| - 1)
  {
    ItemsLength(arr);
  }

  lemma {:induction false} ItemsLength(arr: seq<string>)
    ensures |Items(arr)| == QuotedLength(arr) + (if |arr| == 0 then 0 else |arr| - 1)
  {
    if |arr| > 1 {
      ItemsLength(arr[1..]);
    }
  }

  /** Reads a string literal's body up to its closing quote, undoing the two
      escapes; gives the text and what follows the closing quote. */
  function ReadString(s: string): (r: Option<(string, string)>)
    ensures r.Some? ==> |r.value.1| < |s|
  {
    if |s| == 0 then None
    else if s[0] == '"' then Some(("", s[1..]))
    else if s[0] == '\\' then
      if |s| >= 2 && NeedsEscape(s[1]) then
        match ReadString(s[2..])
        case None => None
        case Some((t, rest)) => Some(([s[1]] + t, rest))
      else None
    else
      match ReadString(s[1..])
      case None => None
      case Some((t, rest)) => Some(([s[0]] + t, rest))
  }

  /** Reads quoted elements separated by commas, up to the closing bracket. */
  function ReadItems(s: string): Option<seq<string>>
    decreases |s|
  {
    if |s| == 0 || s[0] != '"' then None
    else
      match ReadString(s[1..])
      case None => None
      case Some((t, rest)) =>
        if rest == "]" then Some([t])
        else if |rest| > 0 && rest[0] == ',' then
          match ReadItems(rest[1..])
          case None => None
          case Some(more) => Some([t] + more)
        else None
  }

  /** Reads a JSON array of strings in the form `join_json_array` writes. */
  function ReadJsonArray(s: string): Option<seq<string>> {
    if s == "[]" then Some([])
    else if |s| > 0 && s[0] == '[' then ReadItems(s[1..])
    else None
  }

  lemma {:induction false} ReadEscaped(t: string, rest: string)
    ensures ReadString(Escape(t) + "\"" + rest) == Some((t, rest))
  {
    if |t| > 0 {
      var e := EscapeChar(t[0]);
      assert Escape(t) + "\"" + rest == e + (Escape(t[1..]) + "\"" + rest);
      ReadEscaped(t[1..], rest);
      assert [t[0]] + t[1..] == t;
    } else {
      assert Escape(t) + "\"" + rest == "\"" + rest;
    }
  }

  /** One quoted element followed by `tail` reads as that element, then whatever
      `tail` says: the end of the list or, after a comma, more elements. */
  lemma ReadItemsStep(t: string, tail: string)
    ensures ReadItems("\"" + (Escape(t) + "\"" + tail)) ==
      if tail == "]" then Some([t])
      else if |tail| > 0 && tail[0] == ',' then
        match ReadItems(tail[1..])
        case None => None
        case Some(more) => Some([t] + more)
      else None
  {
    var s := "\"" + (Escape(t) + "\"" + tail);
    assert s[1..] == Escape(t) + "\"" + tail;
    ReadEscaped(t, tail);
  }

  lemma {:induction false} ReadItemsRoundTrip(arr: seq<string>)
    requires |arr| > 0
    ensures ReadItems(Items(arr) + "]") == Some(arr)
  {
    if |arr| == 1 {
      assert Items(arr) + "]" == "\"" + (Escape(arr[0]) + "\"" + "]");
      ReadItemsStep(arr[0], "]");
      assert [arr[0]] == arr;
    } else {
      var tail := "," + (Items(arr[1..]) + "]");
      assert Items(arr) + "]" == "\"" + (Escape(arr[0]) + "\"" + tail);
      ReadItemsStep(arr[0], tail);
      assert tail[1..] == Items(arr[1..]) + "]";
      ReadItemsRoundTrip(arr[1..]);
      assert [arr[0]] + arr[1..] == arr;
    }
  }

  /** Reading the output back gives the original list: every element is quoted,
      escaped reversibly and separated by exactly one comma, in order. */
  lemma JoinJsonArrayRoundTrip(arr: seq<string>)
    ensures ReadJsonArray(JoinJsonArray(arr)) == Some(arr)
  {
    if |arr| > 0 {
      var r := JoinJsonArray(arr);
      ReadItemsRoundTrip(arr);
      assert r[1..] == Items(arr) + "]";
      assert r != "[]" by {
        assert |Items(arr)| >= 2;
      }
    }
  }
}
