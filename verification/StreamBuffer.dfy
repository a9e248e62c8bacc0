/**
 The buffered stream layer (misc/network.c): reads through an optional buffer that can be resized at
 any time must deliver the peer's byte stream, in order, with nothing lost and nothing twice.

 `whole` is everything the peer will ever send; `script` says how the operating system answers each
 select-and-recv round, and is followed by errors, so every finite behaviour is covered.  `cuts` counts
 the errors, the ends of file and the reads that ran out of time; signals, and rounds in which nothing is
 there yet, are no cuts.
 */
module StreamBuffer {
  import opened Bytes

  /** One round: no data in time, a signal, an error, end of file, or up to `n` + 1 bytes. */
  datatype Answer = NotReady | Interrupted | Failed | Eof | Data(n: nat)

  /** The rounds in which nothing was there yet. */
  function Pauses(s: seq<Answer>): (n: nat) {
    if s == [] then 0 else Pauses(s[..|s| - 1]) + if s[|s| - 1].NotReady? then 1 else 0
  }

  lemma {:induction false} PausesMore(a: seq<Answer>, b: seq<Answer>)
    ensures Pauses(a + b) == Pauses(a) + Pauses(b)
  {
    if b == [] {
      assert a + b == a;
    } else {
      assert (a + b)[..|a + b| - 1] == a + b[..|b| - 1];
      PausesMore(a, b[..|b| - 1]);
    }
  }

  /** Of the answers `before`, first `used` were taken, and `after` is left. */
  ghost predicate Taken(before: seq<Answer>, after: seq<Answer>, used: seq<Answer>) {
    before == used + after
  }

  /**
   What may cut a read short: an error, the end of file, no more answers, or as many pauses as the timeout has
   seconds.  A signal, few bytes at a time or fewer pauses do not.
   */
  ghost predicate Excused(used: seq<Answer>, after: seq<Answer>, timeout: int) {
    || Failed in used || Eof in used || after == []
    || (timeout > 0 && Pauses(used) >= timeout)
  }

  lemma {:induction false} ExcusedMore(used: seq<Answer>, more: seq<Answer>, after: seq<Answer>, timeout: int)
    requires Excused(more, after, timeout)
    ensures Excused(used + more, after, timeout)
  {
    PausesMore(used, more);
  }

  lemma {:induction false} TakenMore(before: seq<Answer>, middle: seq<Answer>, after: seq<Answer>, a: seq<Answer>,
                                     b: seq<Answer>)
    requires Taken(before, middle, a) && Taken(middle, after, b)
    ensures Taken(before, after, a + b)
  {
  }

  predicate Paused(used: seq<Answer>) {
    used != [] && used[|used| - 1].NotReady?
  }

  predicate TwoPauses(used: seq<Answer>) {
    |used| >= 2 && used[|used| - 1].NotReady? && used[|used| - 2].NotReady?
  }

  /** One more answer has been taken. */
  lemma {:induction false} TakenOne(before: seq<Answer>, asked: seq<Answer>, left: seq<Answer>, used: seq<Answer>)
    requires Taken(before, asked, used) && asked != [] && left == asked[1..]
    ensures Taken(before, left, used + [asked[0]])
    ensures Pauses(used + [asked[0]]) == Pauses(used) + if asked[0].NotReady? then 1 else 0
    ensures Paused(used + [asked[0]]) == asked[0].NotReady?
    ensures TwoPauses(used + [asked[0]]) == (Paused(used) && asked[0].NotReady?)
    ensures asked[0] in used + [asked[0]]
  {
    assert (used + [asked[0]])[..|used|] == used;
    assert [asked[0]] + asked[1..] == asked;
  }

  /** `n` bytes of `whole`, from `from` on, were written to `d` at `off`, and nothing else was. */
  ghost predicate Written(whole: seq<Byte>, from: nat, n: nat, d: seq<Byte>, off: nat, d': seq<Byte>) {
    && from + n <= |whole| && off + n <= |d| == |d'|
    && forall i :: 0 <= i < |d| ==> d'[i] == if off <= i < off + n then whole[from + (i - off)] else d[i]
  }

  lemma {:induction false} WrittenMore(whole: seq<Byte>, from: nat, n: nat, m: nat, d: seq<Byte>, off: nat,
                                       d1: seq<Byte>, d2: seq<Byte>)
    requires Written(whole, from, n, d, off, d1) && Written(whole, from + n, m, d1, off + n, d2)
    ensures Written(whole, from, n + m, d, off, d2)
  {
  }

  function Least(a: nat, b: nat): (n: nat)
    ensures n <= a && n <= b && (n == a || n == b)
  {
    if a < b then a else b
  }

  /** What a script can ask of a stream. */
  datatype Request = Read(minLen: int, maxLen: nat) | Resize(size: int)

  predicate Ends(b: Byte) {
    b == 0 || b == 10
  }

  /** Where a line of at most `max` bytes ends: after its first NUL or newline. */
  function LineLength(s: seq<Byte>, max: nat): (n: nat)
    ensures n <= |s| && n <= max
    ensures forall i :: 0 <= i < n - 1 ==> !Ends(s[i])
    ensures n < |s| && n < max ==> n > 0 && Ends(s[n - 1])
  {
    if s == [] || max == 0 then 0
    else if Ends(s[0]) then 1
    else
      var k := LineLength(s[1..], max - 1);
      assert forall i :: 1 <= i < k ==> s[i] == s[1..][i - 1];
      1 + k
  }

  lemma {:induction false} LineLengthAt(s: seq<Byte>, max: nat, k: nat)
    requires k <= |s| && k <= max && forall i :: 0 <= i < k - 1 ==> !Ends(s[i])
    ensures LineLength(s, max) >= k
    ensures k > 0 && (Ends(s[k - 1]) || k == max) ==> LineLength(s, max) == k
  {
  }

  class Stream {
    ghost const whole: seq<Byte>
    var buf: array?<Byte>     // null if unbuffered
    var bufsz: int
    var bufcnt: int
    var bufptr: int
    var timeout: int
    var incoming: seq<Byte>   // what the peer has sent and nobody has received
    var script: seq<Answer>
    ghost var cuts: nat
    ghost var got: nat        // bytes received from the peer so far
    ghost var pos: nat        // bytes handed to callers so far

    /** The buffer's bookkeeping: the pending bytes lie inside it, and an empty buffer starts at 0. */
    ghost predicate Shape()
      reads this
    {
      if buf == null then bufsz == 0 && bufcnt == 0 && bufptr == 0
      else 1 <= bufsz == buf.Length && 0 <= bufptr && 0 <= bufcnt && bufptr + bufcnt <= bufsz
           && (bufcnt == 0 ==> bufptr == 0)
    }

    /** The buffer holds exactly the bytes received and not yet handed on, in order. */
    ghost predicate Valid()
      reads this, buf
    {
      && Shape()
      && pos + bufcnt == got <= |whole| && incoming == whole[got..]
      && (buf != null ==> forall i :: bufptr <= i < bufptr + bufcnt ==> buf[i] == whole[pos + (i - bufptr)])
    }

    ghost function Pending(): (p: seq<Byte>)
      reads this, buf
      requires Shape()
    {
      if buf == null then [] else buf[bufptr..bufptr + bufcnt]
    }

    lemma PendingIsNext()
      requires Valid()
      ensures whole[..pos] + Pending() == whole[..got]
    {
      assert Pending() == whole[pos..got];
    }

    constructor (whole: seq<Byte>, script: seq<Answer>, timeout: int)
      ensures Valid() && buf == null && pos == 0 && this.whole == whole && this.script == script
    {
      this.whole := whole;
      buf, bufsz, bufcnt, bufptr := null, 0, 0, 0;
      this.incoming, this.script, this.timeout := whole, script, timeout;
      cuts, got, pos := 0, 0, 0;
    }

    // ----- the socket -----

    ghost predicate Linked()
      reads this
    {
      got <= |whole| && incoming == whole[got..]
    }

    /** One round of select and recv into dst[off ..]. */
    method Recv(dst: array<Byte>, off: nat, room: nat) returns (a: Answer, n: nat)
      requires Linked() && room >= 1 && off + room <= dst.Length
      modifies `incoming, `script, `cuts, `got, dst
      ensures Linked() && n <= room && (n > 0 <==> a.Data?)
      ensures if old(script) == [] then a == Failed && script == []
              else script == old(script)[1..]
                   && a == if old(script)[0].Data? && old(incoming) == [] then Eof else old(script)[0]
      ensures a.Data? ==> n == Least(a.n + 1, Least(room, |old(incoming)|))
      ensures cuts == old(cuts) + if a.Failed? || a.Eof? then 1 else 0
      ensures got == old(got) + n && Written(whole, old(got), n, old(dst[..]), off, dst[..])
    {
      a, n := Failed, 0;
      if script != [] {
        a, script := script[0], script[1..];
      }
      if a.Data? && incoming == [] { a := Eof; }
      if a.Data? {
        n := Least(a.n + 1, Least(room, |incoming|));
        forall i | 0 <= i < n { dst[off + i] := incoming[i]; }
        incoming := incoming[n..];
        got := got + n;
      }
      if a.Failed? || a.Eof? { cuts := cuts + 1; }
    }

    /**
     read_stream_connection_unbuffered on a plain socket.  A read that is not cut short brings `minLen` bytes or
     all there is room for; with a `minLen` of 0 it goes on until there were two pauses in a row.
     */
    method ReadRaw(dst: array<Byte>, off: nat, minLen: int, maxLen: nat) returns (total: nat, ghost used: seq<Answer>)
      requires Linked() && off + maxLen <= dst.Length
      modifies `incoming, `script, `cuts, `got, dst
      ensures Linked() && total <= maxLen && cuts >= old(cuts)
      ensures got == old(got) + total && Written(whole, old(got), total, old(dst[..]), off, dst[..])
      ensures Taken(old(script), script, used)
      ensures cuts > old(cuts) ==> Excused(used, script, timeout) || got == |whole|
      ensures cuts == old(cuts) ==> total >= minLen || total == maxLen
      ensures cuts == old(cuts) && minLen <= 0 ==>
                total == maxLen || (total > 0 && TwoPauses(used))
    {
      total, used := 0, [];
      var t, flag := 0, false;
      while total < maxLen && (timeout <= 0 || t < timeout)
        invariant Linked() && total <= maxLen && got == old(got) + total
        invariant Written(whole, old(got), total, old(dst[..]), off, dst[..])
        invariant cuts == old(cuts) && Taken(old(script), script, used) && t == Pauses(used)
        invariant flag ==> total >= minLen && Paused(used)
        decreases |script|
      {
        ghost var d, asked := dst[..], script;
        var a, n := Recv(dst, off + total, maxLen - total);
        WrittenMore(whole, old(got), total, n, old(dst[..]), off, d, dst[..]);
        total := total + n;
        if asked != [] {
          TakenOne(old(script), asked, script, used);
          used := used + [asked[0]];
        }
        match a {
          case NotReady =>
            t := t + 1;
            if total > 0 && flag { return; }
            if total >= minLen { flag := true; }
          case Failed => return;
          case Eof => return;
          case _ =>
            if minLen > 0 && total >= minLen { return; }
            flag := false;
        }
      }
      if total < maxLen { cuts := cuts + 1; }
    }

    // ----- the buffer -----

    /** Copy `n` pending bytes out of the buffer. */
    method Drain(dst: array<Byte>, off: nat, n: nat)
      requires Valid() && buf != null && dst != buf && n <= bufcnt && off + n <= dst.Length
      modifies `bufcnt, `bufptr, `pos, dst
      ensures Valid() && bufcnt == old(bufcnt) - n
      ensures pos == old(pos) + n && Written(whole, old(pos), n, old(dst[..]), off, dst[..])
    {
      forall i | 0 <= i < n { dst[off + i] := buf[bufptr + i]; }
      bufcnt := bufcnt - n;
      if bufcnt == 0 { bufptr := 0; } else { bufptr := bufptr + n; }
      pos := pos + n;
    }

    /** Refill the empty buffer from the network. */
    method Fill(minLen: int) returns (n: nat, ghost used: seq<Answer>)
      requires Valid() && buf != null && bufcnt == 0
      modifies `bufcnt, `incoming, `script, `cuts, `got, buf
      ensures Valid() && bufcnt == n
      ensures cuts == old(cuts) ==> n > 0 && (n >= minLen || n == bufsz)
      ensures cuts >= old(cuts)
      ensures Taken(old(script), script, used)
      ensures cuts > old(cuts) ==> Excused(used, script, timeout) || got == |whole|
    {
      n, used := ReadRaw(buf, 0, minLen, bufsz);
      bufcnt := n;
      forall i | 0 <= i < n ensures buf[i] == whole[pos + i] { assert buf[..][i] == buf[i]; }
    }

    /** Read past the buffer, which must be empty, straight to the caller. */
    method ReadThrough(dst: array<Byte>, off: nat, minLen: int, maxLen: nat)
      returns (n: nat, ghost used: seq<Answer>)
      requires Valid() && bufcnt == 0 && dst != buf && off + maxLen <= dst.Length
      modifies `incoming, `script, `cuts, `got, `pos, dst
      ensures Valid() && n <= maxLen
      ensures pos == old(pos) + n && Written(whole, old(pos), n, old(dst[..]), off, dst[..])
      ensures cuts == old(cuts) ==> n == maxLen || (n > 0 && n >= minLen)
      ensures cuts >= old(cuts)
      ensures Taken(old(script), script, used)
      ensures cuts > old(cuts) ==> Excused(used, script, timeout) || got == |whole|
      ensures n < maxLen ==> bufcnt == 0
    {
      n, used := ReadRaw(dst, off, minLen, maxLen);
      pos := pos + n;
    }

    /** read_stream_connection_min: at least `minLen` if the peer cooperates, at most `maxLen`, always in order. */
    method ReadMin(dst: array<Byte>, off: nat, minLen: int, maxLen: int) returns (n: nat, ghost used: seq<Answer>)
      requires Valid() && maxLen >= (if bufcnt > 0 then 1 else 0) && dst != buf && off + maxLen <= dst.Length
      modifies `bufcnt, `bufptr, `incoming, `script, `cuts, `got, `pos, buf, dst
      ensures Valid() && n <= maxLen
      ensures pos == old(pos) + n && Written(whole, old(pos), n, old(dst[..]), off, dst[..])
      ensures cuts == old(cuts) ==> n == maxLen || (n > 0 && n >= minLen)
      ensures cuts >= old(cuts)
      ensures Taken(old(script), script, used)
      ensures cuts > old(cuts) ==> Excused(used, script, timeout) || got == |whole|
      ensures n < maxLen ==> bufcnt == 0
    {
      if buf == null {
        n, used := ReadThrough(dst, off, minLen, maxLen);
        return;
      }
      var min := if maxLen == 1 then 1 else minLen;   // avoids the "magic read" of min <= 0
      var l2 := if maxLen > bufcnt then bufcnt else maxLen;
      Drain(dst, off, l2);
      if l2 > 0 {
        if bufcnt == 0 { buf[0] := 0; }
        if l2 >= min || l2 >= maxLen { return l2, []; }
      }
      ghost var d := dst[..];
      n, used := ReadMore(dst, off + l2, min - l2, maxLen - l2);
      WrittenMore(whole, old(pos), l2, n, old(dst[..]), off, d, dst[..]);
      n := n + l2;
    }

    /** The part of a read that the empty buffer cannot serve. */
    method ReadMore(dst: array<Byte>, off: nat, minLen: int, maxLen: nat) returns (n: nat, ghost used: seq<Answer>)
      requires Valid() && buf != null && bufcnt == 0 && dst != buf && off + maxLen <= dst.Length
      modifies `bufcnt, `bufptr, `incoming, `script, `cuts, `got, `pos, buf, dst
      ensures Valid() && n <= maxLen
      ensures pos == old(pos) + n && Written(whole, old(pos), n, old(dst[..]), off, dst[..])
      ensures cuts == old(cuts) ==> n == maxLen || (n > 0 && n >= minLen)
      ensures cuts >= old(cuts)
      ensures Taken(old(script), script, used)
      ensures cuts > old(cuts) ==> Excused(used, script, timeout) || got == |whole|
      ensures n < maxLen ==> bufcnt == 0
    {
      if minLen > bufsz {
        n, used := ReadThrough(dst, off, minLen, maxLen);
      } else {
        var l1;
        l1, used := Fill(minLen);
        n := if maxLen > l1 then l1 else maxLen;
        Drain(dst, off, n);
      }
    }

    /** stream_set_buffer: grow, shrink or drop the buffer; refused if pending bytes would not fit. */
    method SetBuffer(sz: int) returns (r: int)
      requires Valid()
      modifies `buf, `bufsz, `bufptr
      ensures Valid() && Pending() == old(Pending())
      ensures r == if sz < bufcnt then -1 else 0
      ensures r == 0 ==> bufsz == sz && (buf == null <==> sz == 0) && (buf != null ==> fresh(buf))
      ensures r == -1 ==> buf == old(buf) && bufsz == old(bufsz)
    {
      if sz < bufcnt { return -1; }
      if sz == 0 {
        buf, bufsz := null, 0;
      } else {
        // g_malloc0, or memmove of the pending bytes to the front and g_realloc
        var b := new Byte[sz](_ => 0);
        if buf != null {
          forall i | 0 <= i < bufcnt { b[i] := buf[bufptr + i]; }
        }
        buf, bufsz, bufptr := b, sz, 0;
      }
      r := 0;
    }

    // ----- lines -----

    method ReadByte(dst: array<Byte>, off: nat) returns (n: nat, ghost used: seq<Answer>)
      requires Valid() && dst != buf && off < dst.Length
      modifies `bufcnt, `bufptr, `incoming, `script, `cuts, `got, `pos, buf, dst
      ensures Valid() && n <= 1 && pos == old(pos) + n && cuts >= old(cuts)
      ensures forall i :: 0 <= i < dst.Length && i != off ==> dst[i] == old(dst[i])
      ensures if n == 1 then dst[off] == whole[old(pos)] else dst[off] == old(dst[off])
      ensures cuts == old(cuts) ==> n == 1
      ensures Taken(old(script), script, used)
      ensures cuts > old(cuts) ==> Excused(used, script, timeout) || got == |whole|
      ensures n == 0 ==> bufcnt == 0
    {
      n, used := ReadMin(dst, off, 1, 1);
      assert forall i :: 0 <= i < dst.Length ==> dst[i] == dst[..][i];
      assert forall i :: 0 <= i < dst.Length ==> old(dst[i]) == old(dst[..])[i];
    }

    /** The loop of recv_line; `done` unless a read came back empty. */
    method LineBytes(line: array<Byte>, size: nat) returns (ret: nat, done: bool, ghost used: seq<Answer>)
      requires Valid() && 1 <= size <= line.Length && line != buf
      modifies `bufcnt, `bufptr, `incoming, `script, `cuts, `got, `pos, buf, line
      ensures Valid() && pos == old(pos) + ret && (cuts == old(cuts) ==> done)
      ensures ret <= LineLength(whole[old(pos)..], size) && (done ==> 0 < ret == LineLength(whole[old(pos)..], size))
      ensures forall i :: 0 <= i < ret ==> line[i] == whole[old(pos)..][i]
      ensures Taken(old(script), script, used)
      ensures !Excused(used, script, timeout) ==> ret == LineLength(whole[old(pos)..], size)
    {
      ret, done, used := 0, false, [];
      ghost var s := whole[pos..];
      while !done
        invariant Valid() && ret <= size && pos == old(pos) + ret && cuts >= old(cuts)
        invariant Taken(old(script), script, used)
        invariant forall i :: 0 <= i < ret ==> line[i] == s[i]
        invariant forall i :: 0 <= i < ret - 1 ==> !Ends(s[i])
        invariant if done then ret > 0 && (Ends(s[ret - 1]) || ret == size)
                  else ret < size && (ret > 0 ==> !Ends(s[ret - 1]))
        decreases !done, size - ret
      {
        ghost var middle := script;
        var n, more := ReadByte(line, ret);
        TakenMore(old(script), middle, script, used, more);
        if n == 0 {
          if Excused(more, script, timeout) { ExcusedMore(used, more, script, timeout); }
          used := used + more;
          break;
        }
        used := used + more;
        ret := ret + 1;
        done := Ends(line[ret - 1]) || ret >= size;
      }
      LineLengthAt(s, size, ret);
    }

    /**
     recv_line on a stream: one byte at a time up to a NUL, a newline or `size` bytes.  Unless a read is cut
     short the line depends on the bytes alone, not on the buffer, the chunks, signals or pauses.
     The line then ends in a NUL, which costs its last byte if the buffer is full.
     */
    method RecvLine(line: array<Byte>, size: nat) returns (ret: nat, ghost used: seq<Answer>)
      requires Valid() && 1 <= size <= line.Length && line != buf
      modifies `bufcnt, `bufptr, `incoming, `script, `cuts, `got, `pos, buf, line
      ensures Valid() && pos == old(pos) + ret && ret <= LineLength(whole[old(pos)..], size)
      ensures cuts == old(cuts) ==> ret == LineLength(whole[old(pos)..], size) > 0
      ensures forall i :: 0 <= i < ret && i < size - 1 ==> line[i] == whole[old(pos)..][i]
      ensures cuts == old(cuts) ==> line[ret - 1] == 0 || (ret < size && line[ret] == 0)
      ensures Taken(old(script), script, used)
      ensures !Excused(used, script, timeout) ==> ret == LineLength(whole[old(pos)..], size)
    {
      line[0] := 0;
      var done;
      ret, done, used := LineBytes(line, size);
      if done && line[ret - 1] != 0 {
        if ret < size { line[ret] := 0; } else { line[size - 1] := 0; }
      }
    }

    // ----- whole sessions -----

    /** One read into a buffer of the caller's; the bytes it yields are the next ones. */
    method Deliver(minLen: int, maxLen: nat) returns (bytes: seq<Byte>)
      requires Valid() && maxLen >= 1
      modifies `bufcnt, `bufptr, `incoming, `script, `cuts, `got, `pos, buf
      ensures Valid() && |bytes| <= maxLen && pos == old(pos) + |bytes| && bytes == whole[old(pos)..pos]
    {
      var dst := new Byte[maxLen](_ => 0);
      var n, _ := ReadMin(dst, 0, minLen, maxLen);
      bytes := dst[..n];
    }

    /**
     Any sequence of reads and resizes: everything delivered so far, followed by what is pending, is
     what was taken from the socket, in order.
     */
    method Session(requests: seq<Request>) returns (delivered: seq<Byte>)
      requires Valid() && pos == 0
      requires forall q :: q in requests && q.Read? ==> q.maxLen >= 1
      modifies this, buf
      ensures Valid() && delivered + Pending() == whole[..got]
    {
      delivered := [];
      for k := 0 to |requests|
        invariant Valid() && delivered == whole[..pos]
        invariant buf != old(buf) && buf != null ==> fresh(buf)
      {
        match requests[k] {
          case Read(minLen, maxLen) =>
            var bytes := Deliver(minLen, maxLen);
            delivered := delivered + bytes;
          case Resize(size) =>
            var _ := SetBuffer(size);
        }
      }
      PendingIsNext();
    }
  }
}
