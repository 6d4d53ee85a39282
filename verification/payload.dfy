/**
 * `extractTextFromObj` (src/app/page.tsx): the best available text in a payload fragment of an event,
 * whatever its shape. Payloads are already-parsed JSON values.
 */
module Payload {
  import opened Wrappers

  /**
   * A parsed JSON value. `Null` stands for both `null` and a missing field (`undefined`), which the
   * extractor treats alike. An object lists its members in the order `Object.values` visits them;
   * a parsed object never repeats a key.
   */
  datatype Json =
    | Null
    | Str(s: string)
    | Num(n: int)
    | Bool(b: bool)
    | Arr(items: seq<Json>)
    | Obj(fields: seq<(string, Json)>)

  /** The position of the member named `key`, or -1 when the object has none (the `key in o` test). */
  function FieldIndex(fields: seq<(string, Json)>, key: string): (k: int)
    ensures -1 <= k < |fields|
    ensures k >= 0 ==> fields[k].0 == key && forall i :: 0 <= i < k ==> fields[i].0 != key
    ensures k < 0 ==> forall i :: 0 <= i < |fields| ==> fields[i].0 != key
  {
    if fields == [] then -1
    else if fields[0].0 == key then 0
    else
      var k := FieldIndex(fields[1..], key);
      if k < 0 then -1 else k + 1
  }

  /** The value of member `key` (`o[key]`), if the object has that member. */
  function Get(fields: seq<(string, Json)>, key: string): Option<Json> {
    var k := FieldIndex(fields, key);
    if k < 0 then None else Some(fields[k].1)
  }

  /**
   * `parts.join("")`: the strings one after another, without separator. No part is lost: each is
   * found, character for character, in the result, and no parts give "".
   */
  function Concat(parts: seq<string>): (r: string)
    ensures parts == [] ==> r == ""
    ensures |parts| == 1 ==> r == parts[0]
    ensures forall k :: 0 <= k < |parts| ==> multiset(parts[k]) <= multiset(r)
  {
    if parts == [] then ""
    else
      var rest := Concat(parts[1..]);
      assert forall k :: 1 <= k < |parts| ==> parts[k] == parts[1..][k - 1];
      parts[0] + rest
  }

  /**
   * `extractTextFromObj(obj)`. Null, numbers and booleans give "", a string gives itself, an array the
   * texts of its elements joined in order. An object gives its `text` member when that is a string,
   * else its `transcript` member when that is a string, else the text of its `content` member (of any
   * type) when it has one, else the texts of all its values joined in order.
   */
  function ExtractText(j: Json): string {
    match j
    case Null => ""
    case Num(_) => ""
    case Bool(_) => ""
    case Str(s) => s
    case Arr(items) => Concat(seq(|items|, i requires 0 <= i < |items| => ExtractText(items[i])))
    case Obj(fields) =>
      var t := FieldIndex(fields, "text");
      var tr := FieldIndex(fields, "transcript");
      var c := FieldIndex(fields, "content");
      if t >= 0 && fields[t].1.Str? then fields[t].1.s
      else if tr >= 0 && fields[tr].1.Str? then fields[tr].1.s
      else if c >= 0 then ExtractText(fields[c].1)
      else Concat(seq(|fields|, i requires 0 <= i < |fields| => ExtractText(fields[i].1)))
  }

  /** Every string leaf of `j`, values only and never keys, in document order. */
  function AllText(j: Json): string {
    match j
    case Str(s) => s
    case Arr(items) => Concat(seq(|items|, i requires 0 <= i < |items| => AllText(items[i])))
    case Obj(fields) => Concat(seq(|fields|, i requires 0 <= i < |fields| => AllText(fields[i].1)))
    case _ => ""
  }

  /** No object anywhere in `j` has a `text`, `transcript` or `content` member. */
  predicate Unmarked(j: Json) {
    match j
    case Arr(items) => forall i :: 0 <= i < |items| ==> Unmarked(items[i])
    case Obj(fields) =>
      && FieldIndex(fields, "text") < 0
      && FieldIndex(fields, "transcript") < 0
      && FieldIndex(fields, "content") < 0
      && forall i :: 0 <= i < |fields| ==> Unmarked(fields[i].1)
    case _ => true
  }

  /** Joining two lists of parts one after the other is joining their concatenation. */
  lemma {:induction false} ConcatAppend(a: seq<string>, b: seq<string>)
    ensures Concat(a + b) == Concat(a) + Concat(b)
  {
    if a == [] {
      assert a + b == b;
    } else {
      assert (a + b)[0] == a[0];
      assert (a + b)[1..] == a[1..] + b;
      ConcatAppend(a[1..], b);
    }
  }

  /** Joining parts that are each covered by the matching part of another list is covered by its join. */
  lemma {:induction false} ConcatCovered(small: seq<string>, big: seq<string>)
    requires |small| == |big|
    requires forall i :: 0 <= i < |small| ==> multiset(small[i]) <= multiset(big[i])
    ensures multiset(Concat(small)) <= multiset(Concat(big))
  {
    if small != [] {
      ConcatCovered(small[1..], big[1..]);
    }
  }

  /**
   * The extractor never invents text: every character it returns (counted with multiplicity) comes
   * from a string value somewhere in the payload.
   */
  lemma {:induction false} ExtractTextFromLeaves(j: Json)
    ensures multiset(ExtractText(j)) <= multiset(AllText(j))
  {
    match j
    case Arr(items) =>
      var ex := seq(|items|, i requires 0 <= i < |items| => ExtractText(items[i]));
      var all := seq(|items|, i requires 0 <= i < |items| => AllText(items[i]));
      forall i | 0 <= i < |items| ensures multiset(ex[i]) <= multiset(all[i]) {
        ExtractTextFromLeaves(items[i]);
      }
      ConcatCovered(ex, all);
    case Obj(fields) =>
      var all := seq(|fields|, i requires 0 <= i < |fields| => AllText(fields[i].1));
      var t := FieldIndex(fields, "text");
      var tr := FieldIndex(fields, "transcript");
      var c := FieldIndex(fields, "content");
      if t >= 0 && fields[t].1.Str? {
        assert all[t] == fields[t].1.s;
      } else if tr >= 0 && fields[tr].1.Str? {
        assert all[tr] == fields[tr].1.s;
      } else if c >= 0 {
        ExtractTextFromLeaves(fields[c].1);
        assert all[c] == AllText(fields[c].1);
      } else {
        var ex := seq(|fields|, i requires 0 <= i < |fields| => ExtractText(fields[i].1));
        forall i | 0 <= i < |fields| ensures multiset(ex[i]) <= multiset(all[i]) {
          ExtractTextFromLeaves(fields[i].1);
        }
        ConcatCovered(ex, all);
      }
    case _ =>
  }

  /**
   * The last-resort rule: when no object in the payload has a `text`, `transcript` or `content`
   * member, the extractor returns every string value, joined in document order.
   */
  lemma {:induction false} ExtractTextUnmarked(j: Json)
    requires Unmarked(j)
    ensures ExtractText(j) == AllText(j)
  {
    match j
    case Arr(items) =>
      var ex := seq(|items|, i requires 0 <= i < |items| => ExtractText(items[i]));
      var all := seq(|items|, i requires 0 <= i < |items| => AllText(items[i]));
      forall i | 0 <= i < |items| ensures ex[i] == all[i] {
        ExtractTextUnmarked(items[i]);
      }
      assert ex == all;
    case Obj(fields) =>
      var ex := seq(|fields|, i requires 0 <= i < |fields| => ExtractText(fields[i].1));
      var all := seq(|fields|, i requires 0 <= i < |fields| => AllText(fields[i].1));
      forall i | 0 <= i < |fields| ensures ex[i] == all[i] {
        ExtractTextUnmarked(fields[i].1);
      }
      assert ex == all;
    case _ =>
  }

  /**
   * The shapes without members: null, numbers and booleans give "", a string gives itself, the empty
   * array gives "" and a one-element array gives its element's text.
   */
  lemma ExtractTextScalars(n: int, b: bool, str: string, x: Json)
    ensures ExtractText(Null) == "" && ExtractText(Num(n)) == "" && ExtractText(Bool(b)) == ""
    ensures ExtractText(Str(str)) == str
    ensures ExtractText(Arr([])) == "" && ExtractText(Arr([x])) == ExtractText(x)
  {
    var one := seq(1, i requires 0 <= i < 1 => ExtractText([x][i]));
    assert one == [ExtractText(x)];
    assert Concat(one) == ExtractText(x) + Concat([]);
  }

  /** An array's text is its elements' texts in order: splitting the array splits the text. */
  lemma ExtractTextArraySplit(a: seq<Json>, b: seq<Json>)
    ensures ExtractText(Arr(a + b)) == ExtractText(Arr(a)) + ExtractText(Arr(b))
  {
    var ea := seq(|a|, i requires 0 <= i < |a| => ExtractText(a[i]));
    var eb := seq(|b|, i requires 0 <= i < |b| => ExtractText(b[i]));
    var eab := seq(|a + b|, i requires 0 <= i < |a + b| => ExtractText((a + b)[i]));
    assert eab == ea + eb;
    ConcatAppend(ea, eb);
  }

  /**
   * The precedence among members of one object: a string `text` wins over everything; failing that a
   * string `transcript`; failing that `content`, whatever its type, and only `content`.
   */
  lemma ExtractTextPrecedence(fields: seq<(string, Json)>)
    ensures Get(fields, "text").Some? && Get(fields, "text").value.Str? ==>
              ExtractText(Obj(fields)) == Get(fields, "text").value.s
    ensures !(Get(fields, "text").Some? && Get(fields, "text").value.Str?) &&
            Get(fields, "transcript").Some? && Get(fields, "transcript").value.Str? ==>
              ExtractText(Obj(fields)) == Get(fields, "transcript").value.s
    ensures !(Get(fields, "text").Some? && Get(fields, "text").value.Str?) &&
            !(Get(fields, "transcript").Some? && Get(fields, "transcript").value.Str?) &&
            Get(fields, "content").Some? ==>
              ExtractText(Obj(fields)) == ExtractText(Get(fields, "content").value)
    ensures !(Get(fields, "text").Some? && Get(fields, "text").value.Str?) &&
            !(Get(fields, "transcript").Some? && Get(fields, "transcript").value.Str?) &&
            Get(fields, "content").None? ==>
              ExtractText(Obj(fields)) == Concat(seq(|fields|, i requires 0 <= i < |fields| => ExtractText(fields[i].1)))
  {
  }

  /** `{text: "A", transcript: "B", content: "C"}` gives "A". */
  lemma ExtractTextPrefersText()
    ensures ExtractText(Obj([("transcript", Str("B")), ("text", Str("A")), ("content", Str("C"))])) == "A"
  {
    var fields := [("transcript", Str("B")), ("text", Str("A")), ("content", Str("C"))];
    assert FieldIndex(fields, "text") == 1;
  }

  /**
   * `{content: [{text: a}, {text: b}]}` gives `a + b` (so `{content: [{text: "Hel"}, {text: "lo"}]}`
   * gives "Hello"): the parts of `content`, in order.
   */
  lemma ExtractTextContentParts(a: string, b: string)
    ensures ExtractText(Obj([("content", Arr([Obj([("text", Str(a))]), Obj([("text", Str(b))])]))])) == a + b
  {
    var pa := Obj([("text", Str(a))]);
    var pb := Obj([("text", Str(b))]);
    TextMember(a);
    TextMember(b);
    ExtractTextArraySplit([pa], [pb]);
    ExtractTextScalars(0, false, "", pa);
    ExtractTextScalars(0, false, "", pb);
    assert [pa] + [pb] == [pa, pb];
    ContentMember(Arr([pa, pb]));
  }

  lemma TextMember(a: string)
    ensures ExtractText(Obj([("text", Str(a))])) == a
  {
    assert FieldIndex([("text", Str(a))], "text") == 0;
  }

  lemma ContentMember(x: Json)
    ensures ExtractText(Obj([("content", x)])) == ExtractText(x)
  {
    var fields := [("content", x)];
    assert FieldIndex(fields, "text") < 0 && FieldIndex(fields, "transcript") < 0;
    assert FieldIndex(fields, "content") == 0;
  }
}
