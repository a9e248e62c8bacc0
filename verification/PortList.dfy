/**
 The two parsers of port lists: the loop of banner_grab in nasl/nasl_builtin_openvas_tcp_scanner.c and
 getpts in misc/network.c.  Text is a string without its final NUL.
 */
module PortList {
  import opened Common
  import opened PortText

  /** All ports from `lo` to `hi`. */
  datatype Range = Range(lo: int, hi: int)

  // ----- the parser of the TCP scanner -----

  /** `Stuck` if the parser would stay at the same place for ever. */
  datatype Parsed = Ok(ranges: seq<Range>) | Bad | Stuck

  function Cons(r: Range, p: Parsed): Parsed {
    if p.Ok? then Ok([r] + p.ranges) else p
  }

  predicate Starts(s: string, c: char) {
    s != "" && s[0] == c
  }

  predicate StartsTag(s: string, c: char) {
    |s| >= 2 && s[0] == c && s[1] == ':'
  }

  function SkipCommas(s: string): (r: string)
    ensures |r| <= |s| && !Starts(r, ',')
  {
    if Starts(s, ',') then SkipCommas(s[1..]) else s
  }

  /** The parser at text `s`. */
  function TcpParse(s: string): Parsed
    decreases |s|
  {
    if s == "" then Ok([])
    else
      var p := SkipCommas(s);
      if StartsTag(p, 'U') then Ok([])
      else TcpItem(if StartsTag(p, 'T') then p[2..] else p, |s|)
  }

  function TcpItem(p: string, n: nat): Parsed
    requires |p| <= n
    decreases n, 0
  {
    if Starts(p, '-') then
      var (po2, rest) := Strtol(p[1..]);
      if |rest| == |p| - 1 then Bad else Cons(Range(1, po2), TcpParse(rest))
    else
      var (po1, q) := Strtol(p);
      if |q| == |p| then Bad
      else if q == "" then Cons(Range(po1, po1), TcpParse(q))
      else if q[0] == ',' then Cons(Range(po1, po1), TcpParse(q[1..]))
      else if q[0] == '-' then
        if |q| == 1 then Cons(Range(po1, 65535), TcpParse(""))
        else
          var (po2, rest) := Strtol(q[1..]);
          if |rest| == |q| - 1 then Bad else Cons(Range(po1, po2), TcpParse(rest))
      else Stuck
  }

  function Prepend(rs: seq<Range>, p: Parsed): Parsed {
    if p.Ok? then Ok(rs + p.ranges) else p
  }

  lemma {:induction false} PrependCons(rs: seq<Range>, r: Range, p: Parsed)
    ensures Prepend(rs, Cons(r, p)) == Prepend(rs + [r], p)
  {
    if p.Ok? { assert rs + ([r] + p.ranges) == rs + [r] + p.ranges; }
  }

  /** The loop itself: `p` moves along the text and the ranges are marked as they come. */
  method ParsePorts(text: string) returns (r: Parsed)
    ensures r == TcpParse(text)
  {
    var p, ranges: seq<Range> := text, [];
    while p != ""
      invariant TcpParse(text) == Prepend(ranges, TcpParse(p))
      decreases |p|
    {
      var start := SkipCommas(p);
      if StartsTag(start, 'U') { break; }
      if StartsTag(start, 'T') { start := start[2..]; }
      var step := ParseItem(start);
      assert TcpParse(p) == TcpItem(start, |p|);
      match step {
        case Failed => return Bad;
        case Still => return Stuck;
        case Moved(range, rest) =>
          PrependCons(ranges, range, TcpParse(rest));
          ranges, p := ranges + [range], rest;
      }
    }
    r := Ok(ranges);
  }

  /** What one turn of the loop comes to. */
  datatype Step = Moved(range: Range, rest: string) | Failed | Still

  method ParseItem(p: string) returns (s: Step)
    ensures s.Moved? ==> |s.rest| < |p|
    ensures forall n :: n >= |p| ==>
              TcpItem(p, n) == match s
                               case Moved(r, rest) => Cons(r, TcpParse(rest))
                               case Failed => Bad
                               case Still => Stuck
  {
    if Starts(p, '-') {
      var (po2, rest) := Strtol(p[1..]);
      if |rest| == |p| - 1 { return Failed; }
      return Moved(Range(1, po2), rest);
    }
    var (po1, q) := Strtol(p);
    if |q| == |p| { return Failed; }
    if q == "" { return Moved(Range(po1, po1), q); }
    if q[0] == ',' { return Moved(Range(po1, po1), q[1..]); }
    if q[0] == '-' {
      if |q| == 1 { return Moved(Range(po1, 65535), ""); }
      var (po2, rest) := Strtol(q[1..]);
      if |rest| == |q| - 1 { return Failed; }
      return Moved(Range(po1, po2), rest);
    }
    s := Still;
  }

  // ----- getpts -----

  function Strip(s: string): string {
    if s == "" then "" else (if s[0] == ' ' then "" else [s[0]]) + Strip(s[1..])
  }

  /** Where `c` followed by a colon first stands; |s| if nowhere. */
  function FindTag(s: string, c: char): (i: nat)
    ensures i <= |s| && (i < |s| ==> StartsTag(s[i..], c))
  {
    if StartsTag(s, c) || s == "" then 0 else 1 + FindTag(s[1..], c)
  }

  function FindChar(s: string, c: char): (i: nat)
    ensures i <= |s| && (i < |s| ==> s[i] == c)
  {
    if s == "" || s[0] == c then 0 else 1 + FindChar(s[1..], c)
  }

  /** The TCP part of a list: after "T:", and before "U:" and its comma. */
  function AfterT(s: string): string {
    var t := FindTag(s, 'T');
    if t < |s| then s[t + 2..] else s
  }

  function BeforeU(e: string): string {
    var u := FindTag(e, 'U');
    if u == |e| then e else if u > 0 && e[u - 1] == ',' then e[..u - 1] else e[..u]
  }

  function Atoi(s: string): int {
    Strtol(s).0
  }

  /** One element between commas. */
  function ElementOf(s: string): Option<Range> {
    var q := FindChar(s, '-');
    var r := if q == 0 && s != "" then Range(1, Atoi(s[1..]))
             else if q == |s| then Range(Atoi(s), Atoi(s))
             else if q + 1 < |s| then Range(Atoi(s), Atoi(s[q + 1..]))
             else Range(Atoi(s), 65535);
    var start := if r.lo < 1 then 1 else r.lo;
    if start > r.hi then None else Some(Range(start, r.hi))
  }

  /** The ranges of the elements of `s`, in order, as `element` reads them. */
  function Elements(element: string -> Option<Range>, s: string): Option<seq<Range>>
    decreases |s|
  {
    var c := FindChar(s, ',');
    var first := element(s[..c]);
    if first.None? then None
    else if c == |s| then Some([first.value])
    else
      var rest := Elements(element, s[c + 1..]);
      if rest.None? then None else Some([first.value] + rest.value)
  }

  function GetRanges(text: string): Option<seq<Range>> {
    Elements(ElementOf, BeforeU(AfterT(Strip(text))))
  }

  /** The loop over the commas of the list. */
  method ParseElements(element: string -> Option<Range>, s: string) returns (r: Option<seq<Range>>)
    ensures r == Elements(element, s)
  {
    var expr, ranges: seq<Range> := s, [];
    var c := FindChar(expr, ',');
    assert Elements(element, s).Some? ==> [] + Elements(element, s).value == Elements(element, s).value;
    while c < |expr|
      invariant c == FindChar(expr, ',') <= |expr|
      invariant Elements(element, s) == After(ranges, Elements(element, expr))
      decreases |expr|
    {
      var first := element(expr[..c]);
      if first.None? { return None; }
      AfterMore(ranges, first.value, Elements(element, expr[c + 1..]));
      ranges, expr := ranges + [first.value], expr[c + 1..];
      c := FindChar(expr, ',');
    }
    var last := element(expr[..c]);
    r := if last.None? then None else Some(ranges + [last.value]);
  }

  function After(rs: seq<Range>, o: Option<seq<Range>>): Option<seq<Range>> {
    if o.None? then None else Some(rs + o.value)
  }

  lemma {:induction false} AfterMore(rs: seq<Range>, r: Range, o: Option<seq<Range>>)
    ensures After(rs, After([r], o)) == After(rs + [r], o)
  {
    if o.Some? { assert rs + ([r] + o.value) == rs + [r] + o.value; }
  }
}
