/**
 * The response renderer of cmd/main.go: `contentString` joins the parts of
 * one content with ";", and `responseString` concatenates the candidates of a
 * response, each prefixed with "N:" (its 1-based index) when there is more
 * than one.
 */
module Render {
  import opened Wrappers
  import Decimal

  /** A part stands for its `%v` text; a text part prints as its string. */
  type Part = string

  /** One turn of a conversation; `parts == None` is a nil `Parts` slice. */
  datatype Content = Content(role: string, parts: Option<seq<Part>>)

  /** A candidate whose `content` may be a nil pointer. */
  datatype Candidate = Candidate(content: Option<Content>)

  datatype Response = Response(candidates: seq<Candidate>)

  const Separator: string := ";"

  /** The parts joined by ";", built left to right as the loop appends them. */
  function Join(parts: seq<Part>): string
    decreases |parts|
  {
    if |parts| == 0 then ""
    else if |parts| == 1 then parts[0]
    else Join(parts[..|parts| - 1]) + Separator + parts[|parts| - 1]
  }

  /** What `contentString` returns. */
  function ContentText(c: Option<Content>): string {
    if c.None? || c.value.parts.None? then "" else Join(c.value.parts.value)
  }

  /** The "N:" label of the candidate with 1-based index `k`. */
  function Label(k: nat): string {
    Decimal.Format(k) + ":"
  }

  /** The text written for candidate `i`, with its label when `labelled`. */
  function Segment(cands: seq<Candidate>, i: nat, labelled: bool): string
    requires i < |cands|
  {
    (if labelled then Label(i + 1) else "") + ContentText(cands[i].content)
  }

  /** The segments of the first `n` candidates, concatenated in order. */
  function Rendered(cands: seq<Candidate>, n: nat, labelled: bool): string
    requires n <= |cands|
    decreases n
  {
    if n == 0 then "" else Rendered(cands, n - 1, labelled) + Segment(cands, n - 1, labelled)
  }

  /** What `responseString` returns. */
  function ResponseText(resp: Response): string {
    Rendered(resp.candidates, |resp.candidates|, |resp.candidates| > 1)
  }

  /** Concatenation of a sequence of strings, with nothing between them. */
  function Concat(ss: seq<string>): string
    decreases |ss|
  {
    if ss == [] then "" else ss[0] + Concat(ss[1..])
  }

  /** The ";" split of a string, as Go's `strings.Split(s, ";")`. */
  function Split(s: string): (r: seq<string>)
    ensures |r| > 0
    decreases |s|
  {
    if s == [] then [""]
    else if s[0] == ';' then [""] + Split(s[1..])
    else var t := Split(s[1..]); [[s[0]] + t[0]] + t[1..]
  }

  predicate NoSeparator(p: Part) {
    forall i :: 0 <= i < |p| ==> p[i] != ';'
  }

  function CountSeparators(s: string): nat
    decreases |s|
  {
    if s == [] then 0 else (if s[0] == ';' then 1 else 0) + CountSeparators(s[1..])
  }

  // ---------------------------------------------------------------------
  // The two builders, as loops over a string builder.

  /** `contentString`: the parts of `c` separated by ";". */
  method ContentString(c: Option<Content>) returns (s: string)
    ensures s == ContentText(c)
  {
    if c.None? || c.value.parts.None? {
      return "";
    }
    var parts := c.value.parts.value;
    s := "";
    var i := 0;
    while i < |parts|
      invariant 0 <= i <= |parts|
      invariant s == Join(parts[..i])
    {
      if i > 0 {
        s := s + Separator;
      }
      s := s + parts[i];
      assert parts[..i + 1][..i] == parts[..i];
      i := i + 1;
    }
    assert parts[..i] == parts;
  }

  /** `responseString`: every candidate's text, labelled when there are several. */
  method ResponseString(resp: Response) returns (s: string)
    ensures s == ResponseText(resp)
  {
    var cands := resp.candidates;
    var labelled := |cands| > 1;
    s := "";
    var i := 0;
    while i < |cands|
      invariant 0 <= i <= |cands|
      invariant s == Rendered(cands, i, labelled)
    {
      if labelled {
        s := s + Label(i + 1);
      }
      var text := ContentString(cands[i].content);
      s := s + text;
      i := i + 1;
    }
  }

  // ---------------------------------------------------------------------
  // Properties of contentString.

  /** Absent content, absent parts and no parts all render as "". */
  lemma ContentAbsent(c: Option<Content>)
    requires c.None? || c.value.parts.None? || c.value.parts.value == []
    ensures ContentText(c) == ""
  {
  }

  /** A single part renders as itself; no separator is added. */
  lemma {:induction false} JoinSingle(p: Part)
    ensures Join([p]) == p
  {
  }

  /** One more part adds exactly one separator, at the end. */
  lemma {:induction false} JoinSnoc(parts: seq<Part>, p: Part)
    requires |parts| > 0
    ensures Join(parts + [p]) == Join(parts) + Separator + p
  {
    var ps := parts + [p];
    assert ps[..|ps| - 1] == parts;
  }

  lemma {:induction false} SplitNoSeparator(p: Part)
    requires NoSeparator(p)
    ensures Split(p) == [p]
    decreases |p|
  {
    if p != [] {
      SplitNoSeparator(p[1..]);
      assert [p[0]] + p[1..] == p;
    }
  }

  /** Split of a string with a known first character. */
  lemma SplitCons(c: char, t: string)
    ensures Split([c] + t) == if c == ';' then [""] + Split(t)
                              else [[c] + Split(t)[0]] + Split(t)[1..]
  {
    assert ([c] + t)[0] == c;
    assert ([c] + t)[1..] == t;
  }

  /** Splitting at a separator splits the two sides independently. */
  lemma {:induction false} SplitAround(a: string, b: string)
    ensures Split(a + Separator + b) == Split(a) + Split(b)
    decreases |a|
  {
    if a == [] {
      assert a + Separator + b == [';'] + b;
      SplitCons(';', b);
    } else {
      SplitAroundStep(a, b);
    }
  }

  lemma {:induction false} SplitAroundStep(a: string, b: string)
    requires a != []
    ensures Split(a + Separator + b) == Split(a) + Split(b)
    decreases |a|, 0
  {
    var rest := a[1..] + Separator + b;
    assert a + Separator + b == [a[0]] + rest;
    assert a == [a[0]] + a[1..];
    SplitAround(a[1..], b);
    var t := Split(a[1..]);
    var u := Split(b);
    assert Split(rest) == t + u;
    SplitCons(a[0], rest);
    SplitCons(a[0], a[1..]);
    if a[0] != ';' {
      assert (t + u)[0] == t[0];
      assert (t + u)[1..] == t[1..] + u;
      calc {
        Split([a[0]] + rest);
        [[a[0]] + t[0]] + (t[1..] + u);
        ([[a[0]] + t[0]] + t[1..]) + u;
      }
    }
  }

  /**
   * Round trip: when no part contains ";", splitting the rendered text at
   * ";" gives back exactly the parts, so the output has |parts| - 1
   * separators and neither starts nor ends with an extra one.
   */
  lemma {:induction false} SplitJoin(parts: seq<Part>)
    requires |parts| > 0
    requires forall i :: 0 <= i < |parts| ==> NoSeparator(parts[i])
    ensures Split(Join(parts)) == parts
    decreases |parts|
  {
    var n := |parts|;
    if n == 1 {
      SplitNoSeparator(parts[0]);
    } else {
      var init := parts[..n - 1];
      SplitJoin(init);
      SplitAround(Join(init), parts[n - 1]);
      SplitNoSeparator(parts[n - 1]);
      assert Split(Join(parts)) == init + [parts[n - 1]];
      assert init + [parts[n - 1]] == parts;
    }
  }

  lemma {:induction false} CountAppend(a: string, b: string)
    ensures CountSeparators(a + b) == CountSeparators(a) + CountSeparators(b)
    decreases |a|
  {
    if a != [] {
      CountAppend(a[1..], b);
      assert (a + b)[0] == a[0];
      assert (a + b)[1..] == a[1..] + b;
    } else {
      assert a + b == b;
    }
  }

  lemma {:induction false} CountNoSeparator(p: Part)
    requires NoSeparator(p)
    ensures CountSeparators(p) == 0
    decreases |p|
  {
    if p != [] {
      CountNoSeparator(p[1..]);
    }
  }

  /**
   * For n >= 1 parts free of ";", the output holds exactly n - 1 separators,
   * starts with the first part and ends with the last.
   */
  lemma {:induction false} JoinShape(parts: seq<Part>)
    requires |parts| > 0
    requires forall i :: 0 <= i < |parts| ==> NoSeparator(parts[i])
    ensures CountSeparators(Join(parts)) == |parts| - 1
    ensures parts[0] <= Join(parts)
    ensures |parts[|parts| - 1]| <= |Join(parts)|
    ensures Join(parts)[|Join(parts)| - |parts[|parts| - 1]|..] == parts[|parts| - 1]
    decreases |parts|
  {
    var n := |parts|;
    if n == 1 {
      CountNoSeparator(parts[0]);
    } else {
      var init := parts[..n - 1];
      JoinShape(init);
      CountAppend(Join(init), Separator);
      CountAppend(Join(init) + Separator, parts[n - 1]);
      CountNoSeparator(parts[n - 1]);
      assert init[0] == parts[0];
      var s := Join(parts);
      assert s == Join(init) + Separator + parts[n - 1];
      assert parts[0] <= Join(init);
    }
  }

  // ---------------------------------------------------------------------
  // Properties of responseString.

  lemma ResponseEmpty(resp: Response)
    requires resp.candidates == []
    ensures ResponseText(resp) == ""
  {
  }

  /** A single candidate is rendered with no "1:" label. */
  lemma ResponseSingle(resp: Response)
    requires |resp.candidates| == 1
    ensures ResponseText(resp) == ContentText(resp.candidates[0].content)
  {
  }

  lemma {:induction false} ConcatSnoc(ss: seq<string>, s: string)
    ensures Concat(ss + [s]) == Concat(ss) + s
    decreases |ss|
  {
    if ss != [] {
      ConcatSnoc(ss[1..], s);
      assert (ss + [s])[1..] == ss[1..] + [s];
    }
  }

  lemma {:induction false} RenderedIsConcat(cands: seq<Candidate>, n: nat, labelled: bool)
    requires n <= |cands|
    ensures Rendered(cands, n, labelled)
         == Concat(seq(n, i requires 0 <= i < n => Segment(cands, i, labelled)))
    decreases n
  {
    if n > 0 {
      RenderedIsConcat(cands, n - 1, labelled);
      var prev := seq(n - 1, i requires 0 <= i < n - 1 => Segment(cands, i, labelled));
      var all := seq(n, i requires 0 <= i < n => Segment(cands, i, labelled));
      assert all == prev + [Segment(cands, n - 1, labelled)];
      ConcatSnoc(prev, Segment(cands, n - 1, labelled));
    }
  }

  /**
   * With more than one candidate, the output is the concatenation over i of
   * Format(i + 1) + ":" + contentString(candidate i), with nothing between
   * candidates.
   */
  lemma ResponseLabelled(resp: Response)
    requires |resp.candidates| > 1
    ensures var cs := resp.candidates;
      ResponseText(resp)
        == Concat(seq(|cs|, i requires 0 <= i < |cs| =>
                    Decimal.Format(i + 1) + ":" + ContentText(cs[i].content)))
  {
    var cs := resp.candidates;
    RenderedIsConcat(cs, |cs|, true);
    assert seq(|cs|, i requires 0 <= i < |cs| => Segment(cs, i, true))
        == seq(|cs|, i requires 0 <= i < |cs| =>
                 Decimal.Format(i + 1) + ":" + ContentText(cs[i].content));
  }

  /** Two candidates with texts "A" and "B" render as "1:A2:B". */
  lemma TwoCandidatesExample()
    ensures ResponseText(Response([Candidate(Some(Content("model", Some(["A"])))),
                                   Candidate(Some(Content("model", Some(["B"]))))]))
         == "1:A2:B"
  {
    assert Decimal.Format(1) == "1";
    assert Decimal.Format(2) == "2";
  }

  /** One candidate with parts "x" and "y" renders as "x;y". */
  lemma OneCandidateTwoPartsExample()
    ensures ResponseText(Response([Candidate(Some(Content("model", Some(["x", "y"]))))])) == "x;y"
  {
  }
}
