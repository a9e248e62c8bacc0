/** The two parsers read every printed list of ports alike; and where they do not. */
module PortAgreement {
  import opened Common
  import opened PortText
  import opened PortList

  datatype Item = One(a: nat) | Span(a: nat, b: nat) | UpTo(b: nat) | From(a: nat)

  function Bounds(i: Item): Range {
    match i
    case One(a) => Range(a, a)
    case Span(a, b) => Range(a, b)
    case UpTo(b) => Range(1, b)
    case From(a) => Range(a, 65535)
  }

  predicate Proper(i: Item) {
    1 <= Bounds(i).lo <= Bounds(i).hi <= 65535
  }

  function Show(i: Item): (s: string)
    ensures s != ""
  {
    match i
    case One(a) => Digits(a)
    case Span(a, b) => Digits(a) + "-" + Digits(b)
    case UpTo(b) => "-" + Digits(b)
    case From(a) => Digits(a) + "-"
  }

  /** Items with commas between them. */
  function ShowAll(items: seq<Item>): (s: string)
    requires items != []
    ensures s != ""
  {
    if |items| == 1 then Show(items[0]) else Show(items[0]) + "," + ShowAll(items[1..])
  }

  function AllBounds(items: seq<Item>): seq<Range> {
    if items == [] then [] else [Bounds(items[0])] + AllBounds(items[1..])
  }

  ghost predicate AllProper(items: seq<Item>) {
    items != [] && forall k :: 0 <= k < |items| ==> Proper(items[k])
  }

  /** An open range stands only at the very end of the text. */
  ghost predicate OpenLast(items: seq<Item>, ended: bool) {
    forall k :: 0 <= k < |items| && items[k].From? ==> ended && k == |items| - 1
  }

  /** No open range. */
  ghost predicate Closed(items: seq<Item>) {
    items != [] && forall k :: 0 <= k < |items| ==> !items[k].From?
  }

  /** A list, perhaps marked as TCP, and perhaps followed by a UDP list. */
  function Text(tagged: bool, items: seq<Item>, udp: seq<Item>): string
    requires items != []
  {
    if tagged then "T:" + (ShowAll(items) + Tail(udp)) else ShowAll(items) + Tail(udp)
  }

  function Tail(udp: seq<Item>): string {
    if udp == [] then "" else ",U:" + ShowAll(udp)
  }

  // ----- the scanner's parser -----

  /** The text after an item: nothing, or a comma and something that is not one. */
  predicate Follows(r: string) {
    r == "" || (|r| >= 2 && r[0] == ',' && r[1] != ',')
  }

  lemma {:induction false} SkipOneComma(r: string)
    requires |r| >= 2 && r[0] == ',' && r[1] != ','
    ensures TcpParse(r) == TcpParse(r[1..])
  {
    assert SkipCommas(r) == r[1..] == SkipCommas(r[1..]);
    var p := r[1..];
    if !StartsTag(p, 'U') {
      var q := if StartsTag(p, 'T') then p[2..] else p;
      assert TcpItem(q, |r|) == TcpItem(q, |p|);
    }
  }

  lemma {:induction false} ShowStarts(i: Item, r: string)
    ensures var s := Show(i) + r;
            s != "" && (IsDigit(s[0]) || s[0] == '-') && (s[0] == '-' <==> i.UpTo?)
  {
  }

  lemma {:induction false} TcpReadsOne(a: nat, r: string)
    requires Follows(r)
    ensures TcpItem(Digits(a) + r, |Digits(a) + r|) == Cons(Range(a, a), TcpParse(r))
  {
    StrtolOfDigits(a, r);
    if r != "" { SkipOneComma(r); }
    assert (Digits(a) + r)[0] == Digits(a)[0];
  }

  lemma {:induction false} TcpSpan(p: string, a: int, q: string, b: int, r: string)
    requires !Starts(p, '-') && Strtol(p) == (a, q) && |q| < |p| && Starts(q, '-') && |q| > 1
    requires Strtol(q[1..]) == (b, r) && |r| < |q| - 1
    ensures TcpItem(p, |p|) == Cons(Range(a, b), TcpParse(r))
  {
  }

  lemma {:induction false} TcpReadsSpan(a: nat, b: nat, r: string)
    requires !StartsWithDigit(r)
    ensures var s := Digits(a) + "-" + Digits(b) + r;
            TcpItem(s, |s|) == Cons(Range(a, b), TcpParse(r))
  {
    var q, s := "-" + (Digits(b) + r), Digits(a) + "-" + Digits(b) + r;
    Joined(Digits(a), Digits(b), r);
    StrtolOfDigits(a, q);
    StrtolOfDigits(b, r);
    TcpSpan(s, a, q, b, r);
  }

  lemma {:induction false} Joined(x: string, y: string, r: string)
    ensures x + "-" + y + r == x + ("-" + (y + r)) && ("-" + (y + r))[1..] == y + r
    ensures x != "" ==> (x + "-" + y + r)[0] == x[0]
  {
  }

  lemma {:induction false} TcpReadsUpTo(b: nat, r: string)
    requires !StartsWithDigit(r)
    ensures var s := "-" + Digits(b) + r;
            TcpItem(s, |s|) == Cons(Range(1, b), TcpParse(r))
  {
    assert ("-" + Digits(b) + r)[1..] == Digits(b) + r;
    StrtolOfDigits(b, r);
  }

  lemma {:induction false} TcpReadsFrom(a: nat)
    ensures var s := Digits(a) + "-";
            TcpItem(s, |s|) == Cons(Range(a, 65535), TcpParse(""))
  {
    StrtolOfDigits(a, "-");
    assert (Digits(a) + "-")[0] == Digits(a)[0];
  }

  lemma {:induction false} TcpReadsItem(i: Item, r: string, s: string)
    requires Follows(r) && (i.From? ==> r == "") && s == Show(i) + r
    ensures TcpItem(s, |s|) == Cons(Bounds(i), TcpParse(r))
  {
    match i {
      case One(a) => TcpReadsOne(a, r);
      case Span(a, b) => TcpReadsSpan(a, b, r);
      case UpTo(b) => TcpReadsUpTo(b, r);
      case From(a) =>
        assert s == Digits(a) + "-";
        TcpReadsFrom(a);
    }
  }

  lemma {:induction false} TcpTagged(s: string)
    requires s != "" && (IsDigit(s[0]) || s[0] == '-')
    ensures TcpParse(s) == TcpItem(s, |s|) && TcpParse("T:" + s) == TcpParse(s)
  {
    assert ("T:" + s)[2..] == s;
    assert TcpItem(s, |s|) == TcpItem(s, |s| + 2);
  }

  /** Any items: all are read, or an open range before the end makes the parser give up. */
  lemma {:induction false} TcpReadsAll(items: seq<Item>, udp: seq<Item>)
    requires items != []
    ensures TcpParse(ShowAll(items) + Tail(udp)) == if OpenLast(items, udp == []) then Ok(AllBounds(items)) else Bad
    decreases |items|
  {
    var i, t := items[0], Tail(udp);
    if |items| == 1 {
      TcpReadsLast(i, udp);
      assert AllBounds(items[1..]) == [];
    } else {
      TcpReadsFirst(items, t);
      if !i.From? {
        TcpReadsAll(items[1..], udp);
        OpenLastTail(items, udp == []);
      }
    }
  }

  /** The first of several items, and then the rest. */
  lemma {:induction false} TcpReadsFirst(items: seq<Item>, t: string)
    requires |items| > 1
    ensures TcpParse(ShowAll(items) + t) ==
            if items[0].From? then Bad else Cons(Bounds(items[0]), TcpParse(ShowAll(items[1..]) + t))
  {
    var i, rest := items[0], ShowAll(items[1..]) + t;
    Spliced(Show(i), ShowAll(items[1..]), t);
    if i.From? {
      TcpGivesUp(i.a, rest);
    } else {
      AllStarts(items[1..], t);
      TcpReadsNext(i, rest);
    }
  }

  lemma {:induction false} OpenLastTail(items: seq<Item>, ended: bool)
    requires |items| > 1 && !items[0].From?
    ensures OpenLast(items, ended) <==> OpenLast(items[1..], ended)
  {
    if OpenLast(items[1..], ended) {
      forall k | 0 <= k < |items| && items[k].From? ensures ended && k == |items| - 1 {
        assert items[k] == items[1..][k - 1];
      }
    }
  }

  lemma {:induction false} TcpReadsLast(i: Item, udp: seq<Item>)
    ensures TcpParse(Show(i) + Tail(udp)) == if i.From? && udp != [] then Bad else Ok([Bounds(i)])
  {
    if i.From? && udp != [] {
      FromBeforeUdp(i.a, udp, Tail(udp));
    } else {
      TcpStopsAtTail(udp);
      TcpReadsOneItem(i, Tail(udp));
      assert [Bounds(i)] + [] == [Bounds(i)];
    }
  }

  lemma {:induction false} FromBeforeUdp(a: nat, udp: seq<Item>, t: string)
    requires udp != [] && t == Tail(udp)
    ensures TcpParse(Show(From(a)) + t) == Bad
  {
    var rest := "U:" + ShowAll(udp);
    assert t == "," + rest;
    TcpGivesUp(a, rest);
  }

  lemma {:induction false} TcpStopsAtTail(udp: seq<Item>)
    ensures Follows(Tail(udp)) && TcpParse(Tail(udp)) == Ok([])
  {
    if udp != [] { TcpStopsAtUdp(udp); }
  }

  lemma {:induction false} TcpGivesUp(a: nat, rest: string)
    ensures TcpParse(Show(From(a)) + ("," + rest)) == Bad
  {
    var r := "-" + ("," + rest);
    assert Show(From(a)) + ("," + rest) == Digits(a) + r;
    StrtolOfDigits(a, r);
    TcpTagged(Digits(a) + r);
    assert r[1..] == "," + rest;
    assert Strtol(r[1..]) == (0, r[1..]);
  }

  lemma {:induction false} Spliced(x: string, y: string, t: string)
    ensures x + "," + y + t == x + ("," + (y + t))
  {
  }

  lemma {:induction false} TcpReadsNext(i: Item, rest: string)
    requires rest != "" && rest[0] != ',' && !i.From?
    ensures TcpParse(Show(i) + ("," + rest)) == Cons(Bounds(i), TcpParse(rest))
  {
    var r := "," + rest;
    assert r[1..] == rest;
    SkipOneComma(r);
    TcpReadsOneItem(i, r);
  }

  lemma {:induction false} TcpReadsOneItem(i: Item, r: string)
    requires Follows(r) && (i.From? ==> r == "")
    ensures TcpParse(Show(i) + r) == Cons(Bounds(i), TcpParse(r))
  {
    ShowStarts(i, r);
    TcpTagged(Show(i) + r);
    TcpReadsItem(i, r, Show(i) + r);
  }

  lemma {:induction false} AllStarts(items: seq<Item>, r: string)
    requires items != []
    ensures var s := ShowAll(items) + r;
            s != "" && (IsDigit(s[0]) || s[0] == '-')
  {
    ShowStarts(items[0], "");
    assert ShowAll(items)[0] == Show(items[0])[0];
  }

  lemma {:induction false} TcpStopsAtUdp(udp: seq<Item>)
    requires udp != []
    ensures Follows(Tail(udp)) && TcpParse(Tail(udp)) == Ok([])
  {
    var t := Tail(udp);
    assert t[1..] == "U:" + ShowAll(udp);
    SkipOneComma(t);
  }

  // ----- getpts -----

  /** No tag, blank or comma other than those between items. */
  predicate Plain(c: char) {
    IsDigit(c) || c == '-' || c == ','
  }

  ghost predicate Lacks(s: string, c: char) {
    forall k :: 0 <= k < |s| ==> s[k] != c
  }

  lemma {:induction false} ShowPlain(i: Item)
    ensures forall k :: 0 <= k < |Show(i)| ==> Plain(Show(i)[k]) && Show(i)[k] != ','
  {
  }

  lemma {:induction false} ShowAllPlain(items: seq<Item>)
    requires items != []
    ensures forall k :: 0 <= k < |ShowAll(items)| ==> Plain(ShowAll(items)[k])
    decreases |items|
  {
    ShowPlain(items[0]);
    if |items| > 1 { ShowAllPlain(items[1..]); }
  }

  lemma {:induction false} NothingToStrip(s: string)
    requires Lacks(s, ' ')
    ensures Strip(s) == s
  {
    if s != "" { NothingToStrip(s[1..]); }
  }

  lemma {:induction false} TagAfter(s: string, r: string, c: char)
    requires Lacks(s, c)
    ensures FindTag(s + r, c) == |s| + FindTag(r, c)
  {
    if s == "" {
      assert s + r == r;
    } else {
      assert (s + r)[1..] == s[1..] + r;
      TagAfter(s[1..], r, c);
    }
  }

  lemma {:induction false} CharAfter(s: string, r: string, c: char)
    requires Lacks(s, c)
    ensures FindChar(s + r, c) == |s| + FindChar(r, c)
  {
    if s == "" {
      assert s + r == r;
    } else {
      assert (s + r)[1..] == s[1..] + r;
      CharAfter(s[1..], r, c);
    }
  }

  lemma {:induction false} ElementOfShow(i: Item)
    requires Proper(i)
    ensures ElementOf(Show(i)) == Some(Bounds(i))
  {
    match i {
      case One(a) =>
        CharAfter(Digits(a), "", '-');
        assert Digits(a) + "" == Digits(a);
        StrtolOfDigits(a, "");
      case Span(a, b) => ElementOfSpan(a, b);
      case UpTo(b) =>
        StrtolOfDigits(b, "");
        assert Show(i)[1..] == Digits(b) == Digits(b) + "";
      case From(a) =>
        CharAfter(Digits(a), "-", '-');
        StrtolOfDigits(a, "-");
    }
  }

  lemma {:induction false} ElementOfSpan(a: nat, b: nat)
    requires Proper(Span(a, b))
    ensures ElementOf(Digits(a) + "-" + Digits(b)) == Some(Range(a, b))
  {
    var r, s := "-" + Digits(b), Digits(a) + "-" + Digits(b);
    assert s == Digits(a) + r && s[|Digits(a)| + 1..] == Digits(b) == Digits(b) + "";
    CharAfter(Digits(a), r, '-');
    StrtolOfDigits(a, r);
    StrtolOfDigits(b, "");
  }

  lemma {:induction false} LastElement(element: string -> Option<Range>, e: string)
    requires Lacks(e, ',')
    requires element(e).Some?
    ensures Elements(element, e) == Some([element(e).value])
  {
    CharAfter(e, "", ',');
    assert e + "" == e == e[..|e|];
  }

  lemma {:induction false} FirstElement(element: string -> Option<Range>, e: string, rest: string)
    requires Lacks(e, ',')
    requires element(e).Some? && Elements(element, rest).Some?
    ensures Elements(element, e + "," + rest) == Some([element(e).value] + Elements(element, rest).value)
  {
    var s := e + "," + rest;
    CharAfter(e, "," + rest, ',');
    assert s == e + ("," + rest) && s[..|e|] == e && s[|e| + 1..] == rest;
  }

  /** `element` reads every item back. */
  ghost predicate Reads(element: string -> Option<Range>, items: seq<Item>) {
    forall k :: 0 <= k < |items| ==> element(Show(items[k])) == Some(Bounds(items[k]))
  }

  lemma {:induction false} ElementsOfShow(element: string -> Option<Range>, items: seq<Item>)
    requires items != [] && Reads(element, items)
    ensures Elements(element, ShowAll(items)) == Some(AllBounds(items))
    decreases |items|
  {
    var i := items[0];
    assert element(Show(i)) == Some(Bounds(i));
    ShowPlain(i);
    if |items| == 1 {
      LastElement(element, Show(i));
      assert ShowAll(items) == Show(i);
      assert AllBounds(items[1..]) == [] && [Bounds(i)] + [] == [Bounds(i)];
    } else {
      ElementsOfShow(element, items[1..]);
      FirstElement(element, Show(i), ShowAll(items[1..]));
    }
  }

  lemma {:induction false} ElementsRead(items: seq<Item>)
    requires forall k :: 0 <= k < |items| ==> Proper(items[k])
    ensures Reads(ElementOf, items)
  {
    forall k | 0 <= k < |items| ensures ElementOf(Show(items[k])) == Some(Bounds(items[k])) {
      ElementOfShow(items[k]);
    }
  }

  lemma {:induction false} LacksBoth(a: string, b: string, c: char)
    requires Lacks(a, c) && Lacks(b, c)
    ensures Lacks(a + b, c)
  {
  }

  lemma {:induction false} BodyLacks(items: seq<Item>, udp: seq<Item>, c: char)
    requires items != [] && (c == ' ' || c == 'T')
    ensures Lacks(ShowAll(items) + Tail(udp), c)
  {
    ShowAllPlain(items);
    if udp != [] {
      ShowAllPlain(udp);
      LacksBoth(",U:", ShowAll(udp), c);
    }
    LacksBoth(ShowAll(items), Tail(udp), c);
  }

  lemma {:induction false} TextIsPlain(tagged: bool, items: seq<Item>, udp: seq<Item>)
    requires items != []
    ensures Lacks(Text(tagged, items, udp), ' ') && Lacks(ShowAll(items) + Tail(udp), 'T')
  {
    BodyLacks(items, udp, ' ');
    BodyLacks(items, udp, 'T');
    LacksBoth("T:", ShowAll(items) + Tail(udp), ' ');
  }

  lemma {:induction false} TagInTail(u: string)
    ensures FindTag(",U:" + u, 'U') == 1
  {
    var r := ",U:" + u;
    assert r[1..] == "U:" + u;
    assert StartsTag(r[1..], 'U') && !StartsTag(r, 'U');
  }

  lemma {:induction false} CutUdp(e: string, r: string)
    requires Lacks(e, 'U') && |r| > 1 && r[0] == ',' && FindTag(r, 'U') == 1
    ensures BeforeU(e + r) == e
  {
    TagAfter(e, r, 'U');
    assert (e + r)[|e|] == r[0] && (e + r)[..|e|] == e;
  }

  lemma {:induction false} NothingToCut(e: string)
    requires Lacks(e, 'U')
    ensures BeforeU(e) == e
  {
    TagAfter(e, "", 'U');
    assert e + "" == e;
  }

  lemma {:induction false} CutTag(e: string)
    requires Lacks(e, 'T')
    ensures AfterT(e) == e && AfterT("T:" + e) == e
  {
    TagAfter(e, "", 'T');
    assert e + "" == e && ("T:" + e)[2..] == e;
  }

  lemma {:induction false} PartOfText(tagged: bool, items: seq<Item>, udp: seq<Item>)
    requires items != []
    ensures BeforeU(AfterT(Text(tagged, items, udp))) == ShowAll(items)
  {
    var e := ShowAll(items) + Tail(udp);
    TextIsPlain(tagged, items, udp);
    CutTag(e);
    MainPart(items, udp);
  }

  lemma {:induction false} MainPart(items: seq<Item>, udp: seq<Item>)
    requires items != []
    ensures BeforeU(ShowAll(items) + Tail(udp)) == ShowAll(items)
  {
    ShowAllPlain(items);
    if udp == [] {
      NothingToCut(ShowAll(items));
      assert ShowAll(items) + "" == ShowAll(items);
    } else {
      TagInTail(ShowAll(udp));
      CutUdp(ShowAll(items), Tail(udp));
    }
  }

  lemma {:induction false} GetRangesOfText(tagged: bool, items: seq<Item>, udp: seq<Item>)
    requires AllProper(items)
    ensures GetRanges(Text(tagged, items, udp)) == Some(AllBounds(items))
  {
    TextIsPlain(tagged, items, udp);
    NothingToStrip(Text(tagged, items, udp));
    PartOfText(tagged, items, udp);
    ElementsRead(items);
    ElementsOfShow(ElementOf, items);
  }

  /**
   For every list of proper items: getpts reads it; the scanner reads the same, unless an open range
   stands before another item or before a UDP list, and then it gives up.
   */
  lemma {:induction false} ParsersAgree(tagged: bool, items: seq<Item>, udp: seq<Item>)
    requires AllProper(items)
    ensures GetRanges(Text(tagged, items, udp)) == Some(AllBounds(items))
    ensures TcpParse(Text(tagged, items, udp)) == if OpenLast(items, udp == []) then Ok(AllBounds(items)) else Bad
  {
    AllStarts(items, Tail(udp));
    TcpTagged(ShowAll(items) + Tail(udp));
    TcpReadsAll(items, udp);
    GetRangesOfText(tagged, items, udp);
  }

  // ----- blanks, and a UDP list in front -----

  lemma {:induction false} StripParts(a: string, b: string)
    ensures Strip(a + b) == Strip(a) + Strip(b)
  {
    if a == "" {
      assert a + b == b;
    } else {
      assert (a + b)[1..] == a[1..] + b;
      StripParts(a[1..], b);
    }
  }

  /** A blank anywhere in the text makes no difference to getpts. */
  lemma {:induction false} BlankIgnored(a: string, b: string)
    ensures GetRanges(a + " " + b) == GetRanges(a + b)
  {
    StripParts(a + " ", b);
    StripParts(a, " ");
    StripParts(a, b);
    assert Strip(" ") == "" by { assert " "[1..] == ""; }
    assert Strip(a) + "" == Strip(a);
  }

  /** So getpts reads a list with blanks strewn in as the list without them. */
  lemma {:induction false} GetRangesWithBlanks(t: string, tagged: bool, items: seq<Item>, udp: seq<Item>)
    requires AllProper(items) && Strip(t) == Text(tagged, items, udp)
    ensures GetRanges(t) == Some(AllBounds(items))
  {
    GetRangesOfText(tagged, items, udp);
    TextIsPlain(tagged, items, udp);
    NothingToStrip(Strip(t));
  }

  /** With the UDP list in front, getpts finds the TCP list behind it; the scanner's parser stops at once. */
  lemma {:induction false} UdpFirst(items: seq<Item>, udp: seq<Item>)
    requires AllProper(items) && udp != []
    ensures var text := "U:" + ShowAll(udp) + "," + ("T:" + ShowAll(items));
            GetRanges(text) == Some(AllBounds(items)) && TcpParse(text) == Ok([])
  {
    var u, s := "U:" + ShowAll(udp) + ",", ShowAll(items);
    StopsAtOnce(u + ("T:" + s));
    ShowAllPlain(udp);
    ShowAllPlain(items);
    assert Lacks(u, 'T') && Lacks(u + ("T:" + s), ' ');
    NothingToStrip(u + ("T:" + s));
    AfterLaterT(u, s);
    NothingToCut(s);
    ElementsRead(items);
    ElementsOfShow(ElementOf, items);
  }

  lemma {:induction false} StopsAtOnce(s: string)
    requires StartsTag(s, 'U')
    ensures TcpParse(s) == Ok([])
  {
  }

  lemma {:induction false} AfterLaterT(u: string, s: string)
    requires Lacks(u, 'T')
    ensures AfterT(u + ("T:" + s)) == s
  {
    TagAfter(u, "T:" + s, 'T');
    assert FindTag("T:" + s, 'T') == 0;
    assert (u + ("T:" + s))[|u| + 2..] == s;
  }

  // ----- text after the items that belongs to no list -----

  lemma {:induction false} ConsPrepend(r: Range, rs: seq<Range>, p: Parsed)
    ensures Cons(r, Prepend(rs, p)) == Prepend([r] + rs, p)
  {
    if p.Ok? { assert [r] + (rs + p.ranges) == [r] + rs + p.ranges; }
  }

  /** `parse` reads each item but the last, and goes on with those after it. */
  ghost predicate ReadsOn(parse: string -> Parsed, items: seq<Item>, q: string) {
    forall k :: 0 <= k < |items| - 1 ==>
      parse(ShowAll(items[k..]) + q) == Cons(Bounds(items[k]), parse(ShowAll(items[k + 1..]) + q))
  }

  lemma {:induction false} TcpReadsOn(items: seq<Item>, q: string)
    requires Closed(items)
    ensures ReadsOn(TcpParse, items, q)
  {
    forall k | 0 <= k < |items| - 1
      ensures TcpParse(ShowAll(items[k..]) + q) == Cons(Bounds(items[k]), TcpParse(ShowAll(items[k + 1..]) + q))
    {
      TcpReadsFirst(items[k..], q);
      assert items[k..][1..] == items[k + 1..];
    }
  }

  lemma {:induction false} FromItem(parse: string -> Parsed, items: seq<Item>, q: string, p: Parsed, k: nat)
    requires ReadsOn(parse, items, q) && k < |items|
    requires var n := |items| - 1;
             parse(ShowAll(items[n..]) + q) == if items[n].One? then Stuck else Prepend([Bounds(items[n])], p)
    ensures parse(ShowAll(items[k..]) + q) ==
            if items[|items| - 1].One? then Stuck else Prepend(AllBounds(items[k..]), p)
    decreases |items| - k
  {
    if k == |items| - 1 {
      OneBound(items[k..]);
    } else {
      FromItem(parse, items, q, p, k + 1);
      assert items[k..][1..] == items[k + 1..];
      ConsPrepend(Bounds(items[k]), AllBounds(items[k + 1..]), p);
    }
  }

  /** After a number the parser needs a comma, a dash or the end; after a range it goes on with whatever follows. */
  lemma {:induction false} ThenText(items: seq<Item>, q: string)
    requires Closed(items) && q != "" && !IsDigit(q[0]) && q[0] != ',' && q[0] != '-'
    ensures TcpParse(ShowAll(items) + q) ==
            if items[|items| - 1].One? then Stuck else Prepend(AllBounds(items), TcpParse(q))
  {
    var n := |items| - 1;
    TcpReadsOn(items, q);
    OneBound(items[n..]);
    ItemThenText(items[n], q);
    FromItem(TcpParse, items, q, TcpParse(q), 0);
    assert items[0..] == items;
  }

  lemma {:induction false} OneBound(items: seq<Item>)
    requires |items| == 1
    ensures AllBounds(items) == [Bounds(items[0])] && ShowAll(items) == Show(items[0])
  {
    assert AllBounds(items[1..]) == [];
  }

  lemma {:induction false} ItemThenText(i: Item, q: string)
    requires !i.From? && q != "" && !IsDigit(q[0]) && q[0] != ',' && q[0] != '-'
    ensures TcpParse(Show(i) + q) == if i.One? then Stuck else Prepend([Bounds(i)], TcpParse(q))
  {
    ShowStarts(i, q);
    TcpTagged(Show(i) + q);
    match i {
      case One(a) => StrtolOfDigits(a, q);
      case Span(a, b) => TcpReadsSpan(a, b, q);
      case UpTo(b) => TcpReadsUpTo(b, q);
    }
  }

  /** Text in which the scanner's parser finds neither a number nor a tag. */
  predicate Alien(q: string) {
    && q != "" && !IsDigit(q[0]) && q[0] != ',' && q[0] != '-' && q[0] != '+' && !IsSpace(q[0])
    && !StartsTag(q, 'T') && !StartsTag(q, 'U')
  }

  lemma {:induction false} AlienIsBad(q: string)
    requires Alien(q)
    ensures TcpParse(q) == Bad
  {
    assert Strtol(q) == (0, q);
  }

  lemma {:induction false} OpenThenText(items: seq<Item>, q: string)
    requires items != [] && !Closed(items) && Alien(q)
    ensures TcpParse(ShowAll(items) + q) == Bad
    decreases |items|
  {
    var i := items[0];
    if |items| == 1 {
      FromThenText(i.a, q);
    } else {
      TcpReadsFirst(items, q);
      if !i.From? {
        assert !Closed(items[1..]) by {
          var k :| 0 <= k < |items| && items[k].From?;
          assert items[1..][k - 1].From?;
        }
        OpenThenText(items[1..], q);
      }
    }
  }

  lemma {:induction false} FromThenText(a: nat, q: string)
    requires Alien(q)
    ensures TcpParse(Show(From(a)) + q) == Bad
  {
    var r := "-" + q;
    assert Show(From(a)) + q == Digits(a) + r && r[1..] == q;
    StrtolOfDigits(a, r);
    TcpTagged(Digits(a) + r);
    assert Strtol(q) == (0, q);
  }

  /** Such text after any list: the parser stays in place for ever after a number, and gives up otherwise. */
  lemma {:induction false} StuckIffNumber(tagged: bool, items: seq<Item>, q: string)
    requires items != [] && Alien(q)
    ensures var e := ShowAll(items) + q;
            TcpParse(if tagged then "T:" + e else e) == if Closed(items) && items[|items| - 1].One? then Stuck else Bad
  {
    AllStarts(items, q);
    TcpTagged(ShowAll(items) + q);
    AlienIsBad(q);
    if Closed(items) { ThenText(items, q); } else { OpenThenText(items, q); }
  }
}
