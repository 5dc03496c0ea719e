/** Infinite byte streams standing in for a program's stdout (`Writable`) and
    stdin (`Readable`) in tests. Each stream is a byte queue; the mutexes and
    the wake-up channels around it are not modelled, the waiting in
    `ReadUntil` is replaced by a sequence of events supplied by the caller. */
module MockIO {
  import opened Shared

  /** The one error a byte buffer reports: Go's `io.EOF`. */
  datatype IoError = Eof

  /** What `bytes.Buffer.ReadString(delim)` does to buffer contents `buf`:
      the bytes it returns, the bytes it leaves, and its error. */
  datatype Split = Split(line: seq<byte>, rest: seq<byte>, err: Option<IoError>)

  /** `bytes.Buffer.ReadString`: everything up to and including the first
      `delim`; when `delim` is absent, the whole buffer and `io.EOF`. */
  function ReadString(buf: seq<byte>, delim: byte): (r: Split)
    ensures r.line + r.rest == buf
    ensures r.err == None <==> delim in buf
    ensures r.err == None ==>
      |r.line| > 0 && r.line[|r.line| - 1] == delim && delim !in r.line[..|r.line| - 1]
    ensures r.err != None ==> r.err == Some(Eof) && r.rest == [] && delim !in r.line
  {
    var i := IndexOf(buf, delim);
    if i < 0 then Split(buf, [], Some(Eof))
    else
      assert buf[..i + 1][..i] == buf[..i];
      Split(buf[..i + 1], buf[i + 1..], None)
  }

  /** What can happen while `ReadUntil` waits for more output: a `Write` of
      `data`, whose signal either woke the waiting reader or found it busy
      (the signal is then dropped), or the expiry of the timeout. The end of
      the event sequence stands for the timeout too. */
  datatype Event = Arrive(data: seq<byte>, woke: bool) | Timeout

  /** The bytes an event writes. */
  function Written(ev: Event): seq<byte>
  {
    match ev
    case Arrive(data, _) => data
    case Timeout => []
  }

  /** All bytes written by the given events, in order. */
  function Arrived(events: seq<Event>): (r: seq<byte>)
    ensures events == [] ==> r == []
  {
    if events == [] then [] else Arrived(events[..|events| - 1]) + Written(events[|events| - 1])
  }

  /** How a `ReadUntil` that has found no delimiter yet ends. */
  datatype Outcome = Outcome(val: seq<byte>, err: Option<IoError>, used: nat, rest: seq<byte>)

  /** The waiting loop from event `k` on, with `val` gathered so far and
      `buf` in the buffer: each write lands in the buffer; a write whose
      signal wakes the reader makes it take `ReadString` off the buffer and
      stop once the delimiter is in it; the timeout, or the end of the
      events, makes it return what it gathered with `io.EOF`. */
  function Waiting(delim: byte, events: seq<Event>, k: nat, val: seq<byte>, buf: seq<byte>): Outcome
    requires k <= |events|
    decreases |events| - k
  {
    if k == |events| then Outcome(val, Some(Eof), k, buf)
    else
      match events[k]
      case Timeout => Outcome(val, Some(Eof), k + 1, buf)
      case Arrive(data, woke) =>
        if !woke then Waiting(delim, events, k + 1, val, buf + data)
        else
          var r := ReadString(buf + data, delim);
          if r.err == None then Outcome(val + r.line, None, k + 1, r.rest)
          else Waiting(delim, events, k + 1, val + r.line, r.rest)
  }

  lemma ArrivedStep(events: seq<Event>, k: nat)
    requires k < |events|
    ensures Arrived(events[..k + 1]) == Arrived(events[..k]) + Written(events[k])
  {
    assert events[..k + 1][..k] == events[..k];
  }

  /** Appending what `ReadString` returned to a delimiter-free prefix keeps
      "the delimiter occurs once, at the end" or "no delimiter". */
  lemma ExtendLine(val: seq<byte>, line: seq<byte>, delim: byte, found: bool)
    requires delim !in val
    requires found ==> |line| > 0 && line[|line| - 1] == delim && delim !in line[..|line| - 1]
    requires !found ==> delim !in line
    ensures var w := val + line;
      (delim in w <==> found) &&
      (found ==> w[|w| - 1] == delim && delim !in w[..|w| - 1])
  {
    var w := val + line;
    if found {
      assert w[..|w| - 1] == val + line[..|line| - 1];
      assert w[|w| - 1] == delim;
    }
  }

  /** Stdout: a sink that keeps everything written until a test reads it. */
  class Writable {
    /** All output not yet consumed, oldest first. */
    var buffer: seq<byte>

    /** `Stdout()`: a stream with an empty buffer. */
    constructor Stdout()
      ensures buffer == []
    {
      buffer := [];
    }

    /** `Write` appends all of `out` and never fails. */
    method Write(out: seq<byte>) returns (n: nat, e: Option<IoError>)
      modifies this
      ensures buffer == old(buffer) + out
      ensures n == |out| && e == None
    {
      buffer := buffer + out;
      n, e := |out|, None;
    }

    /** `ReadNow` returns the whole buffer and empties it. */
    method ReadNow() returns (val: seq<byte>)
      modifies this
      ensures val == old(buffer)
      ensures buffer == []
    {
      val := buffer;
      buffer := [];
    }

    /** `buffer.ReadString(delim)` under the lock: takes the bytes through
        the first `delim` off the buffer, or all of them with `io.EOF`. */
    method TakeString(delim: byte) returns (v: seq<byte>, err: Option<IoError>)
      modifies this
      ensures v + buffer == old(buffer)
      ensures err == None <==> delim in old(buffer)
      ensures err == None ==> v == old(buffer)[..IndexOf(old(buffer), delim) + 1]
      ensures err == None ==> |v| > 0 && v[|v| - 1] == delim && delim !in v[..|v| - 1]
      ensures err != None ==> err == Some(Eof) && buffer == [] && delim !in v
    {
      var r := ReadString(buffer, delim);
      v, buffer, err := r.line, r.rest, r.err;
    }

    /** `ReadUntil(delim, timeout)`: reads through the first `delim`, waiting
        for further writes while it is absent, until the timeout. `used` is the
        number of `events` that happened before it returned. */
    method ReadUntil(delim: byte, events: seq<Event>) returns (val: seq<byte>, err: Option<IoError>, used: nat)
      modifies this
      ensures used <= |events|
      // nothing written before the return is lost, duplicated or reordered
      ensures val + buffer == old(buffer) + Arrived(events[..used])
      // it waits only while the delimiter is missing and stops at the first timeout
      ensures delim in old(buffer) ==> used == 0
      ensures delim in old(buffer) ==> val == old(buffer)[..IndexOf(old(buffer), delim) + 1]
      ensures delim !in old(buffer) ==> Outcome(val, err, used, buffer) == Waiting(delim, events, 0, old(buffer), [])
      ensures NoTimeout(events, used - 1)
      // found: the delimiter ends the result and occurs in it once
      ensures err == None <==> delim in val
      ensures err == None ==> val[|val| - 1] == delim && delim !in val[..|val| - 1]
      // timed out: nothing after the last wake-up was re-read
      ensures err != None ==> err == Some(Eof) && (used == |events| || (0 < used && events[used - 1] == Timeout))
    {
      val, err := TakeString(delim);
      used := 0;
      if err == None {
        return;
      }
      assert val == old(buffer) && buffer == [];
      val, err, used := AwaitDelimiter(delim, events, val);
    }

    /** The waiting loop of `ReadUntil`: on each wake-up, takes what
        `ReadString` returns and appends it to the bytes gathered so far. */
    method AwaitDelimiter(delim: byte, events: seq<Event>, gathered: seq<byte>) returns (val: seq<byte>, err: Option<IoError>, used: nat)
      requires delim !in gathered
      modifies this
      ensures Outcome(val, err, used, buffer) == Waiting(delim, events, 0, gathered, old(buffer))
      ensures used <= |events|
      ensures val + buffer == gathered + old(buffer) + Arrived(events[..used])
      ensures NoTimeout(events, used - 1)
      ensures err == None ==> |val| > 0 && val[|val| - 1] == delim && delim !in val[..|val| - 1]
      ensures err != None ==> delim !in val
      ensures err != None ==> err == Some(Eof) && (used == |events| || (0 < used && events[used - 1] == Timeout))
    {
      val, err, used := gathered, Some(Eof), 0;
      var buf := buffer;
      while used < |events| && events[used].Arrive? && err == Some(Eof)
        invariant used <= |events|
        invariant err == Some(Eof) ==> Waiting(delim, events, 0, gathered, old(buffer)) == Waiting(delim, events, used, val, buf)
        invariant err != Some(Eof) ==> Waiting(delim, events, 0, gathered, old(buffer)) == Outcome(val, err, used, buf)
        decreases |events| - used
      {
        var data, woke := events[used].data, events[used].woke;
        used := used + 1;
        // a writer's Write lands; its signal then wakes the reader or is dropped
        buf := buf + data;
        if woke {
          var v := ReadString(buf, delim);
          val, buf, err := val + v.line, v.rest, v.err;
        }
      }
      buffer := buf;
      if err == Some(Eof) && used < |events| {
        // the timeout fires
        used := used + 1;
      }
      WaitingStops(delim, events, 0, gathered, old(buffer));
      WaitingKeepsBytes(delim, events, 0, gathered, old(buffer), gathered + old(buffer));
      WaitingEndsAtDelimiter(delim, events, 0, gathered, old(buffer));
    }
  }

  /** The waiting loop ends at or after event `k` and at the first timeout. */
  lemma {:induction false} WaitingStops(delim: byte, events: seq<Event>, k: nat, val: seq<byte>, buf: seq<byte>)
    requires k <= |events| && NoTimeout(events, k)
    ensures var o := Waiting(delim, events, k, val, buf);
      && k <= o.used <= |events|
      && NoTimeout(events, o.used - 1)
      && (o.err != None ==> o.err == Some(Eof) && (o.used == |events| || (0 < o.used && events[o.used - 1] == Timeout)))
    decreases |events| - k
  {
    if k < |events| && events[k].Arrive? {
      var data := events[k].data;
      if !events[k].woke {
        WaitingStops(delim, events, k + 1, val, buf + data);
      } else {
        var r := ReadString(buf + data, delim);
        if r.err != None {
          WaitingStops(delim, events, k + 1, val + r.line, r.rest);
        }
      }
    }
  }

  /** The waiting loop consumes at least the events it starts from and no
      more than there are. */
  lemma {:induction false} WaitingUsedBounds(delim: byte, events: seq<Event>, k: nat, val: seq<byte>, buf: seq<byte>)
    requires k <= |events|
    ensures k <= Waiting(delim, events, k, val, buf).used <= |events|
    decreases |events| - k
  {
    if k < |events| && events[k].Arrive? {
      var data := events[k].data;
      if !events[k].woke {
        WaitingUsedBounds(delim, events, k + 1, val, buf + data);
      } else {
        var r := ReadString(buf + data, delim);
        if r.err != None {
          WaitingUsedBounds(delim, events, k + 1, val + r.line, r.rest);
        }
      }
    }
  }

  /** The waiting loop keeps every byte that arrived before it returned,
      in order: what it returns followed by what it leaves in the buffer. */
  lemma {:induction false} WaitingKeepsBytes(delim: byte, events: seq<Event>, k: nat, val: seq<byte>, buf: seq<byte>, start: seq<byte>)
    requires k <= |events|
    requires val + buf == start + Arrived(events[..k])
    ensures var o := Waiting(delim, events, k, val, buf);
      o.used <= |events| && o.val + o.rest == start + Arrived(events[..o.used])
    decreases |events| - k
  {
    WaitingUsedBounds(delim, events, k, val, buf);
    if k < |events| {
      ArrivedStep(events, k);
      var before := Arrived(events[..k]);
      match events[k]
      case Timeout =>
        assert Arrived(events[..k + 1]) == before;
      case Arrive(data, woke) =>
        assert Arrived(events[..k + 1]) == before + data;
        assert val + (buf + data) == start + (before + data) by {
          Associative(val, buf, data);
          Associative(start, before, data);
        }
        if !woke {
          WaitingKeepsBytes(delim, events, k + 1, val, buf + data, start);
        } else {
          var r := ReadString(buf + data, delim);
          assert (val + r.line) + r.rest == start + Arrived(events[..k + 1]) by {
            Associative(val, r.line, r.rest);
          }
          if r.err != None {
            WaitingKeepsBytes(delim, events, k + 1, val + r.line, r.rest, start);
          }
        }
    }
  }

  /** The waiting loop returns through the first delimiter, or without any
      delimiter when it times out. */
  lemma {:induction false} WaitingEndsAtDelimiter(delim: byte, events: seq<Event>, k: nat, val: seq<byte>, buf: seq<byte>)
    requires k <= |events| && delim !in val
    ensures var o := Waiting(delim, events, k, val, buf);
      && (o.err == None ==> |o.val| > 0 && o.val[|o.val| - 1] == delim && delim !in o.val[..|o.val| - 1])
      && (o.err != None ==> delim !in o.val)
    decreases |events| - k
  {
    if k < |events| && events[k].Arrive? {
      var data := events[k].data;
      if !events[k].woke {
        WaitingEndsAtDelimiter(delim, events, k + 1, val, buf + data);
      } else {
        var r := ReadString(buf + data, delim);
        ExtendLine(val, r.line, delim, r.err == None);
        if r.err != None {
          WaitingEndsAtDelimiter(delim, events, k + 1, val + r.line, r.rest);
        }
      }
    }
  }

  lemma Associative(a: seq<byte>, b: seq<byte>, c: seq<byte>)
    ensures (a + b) + c == a + (b + c)
  {
  }

  /** None of the first `n` events is the timeout. */
  predicate NoTimeout(events: seq<Event>, n: int)
  {
    forall k :: 0 <= k < n && k < |events| ==> events[k].Arrive?
  }

  /** Stdin: a stream that a test writes and the program under test reads. */
  class Readable {
    /** All input not yet consumed, oldest first. */
    var buffer: seq<byte>

    /** `Stdin()`: a stream with an empty buffer. */
    constructor Stdin()
      ensures buffer == []
    {
      buffer := [];
    }

    /** `Read` copies up to `out.Length` bytes from the front of the buffer
        into `out` and removes them; `io.EOF` from an empty buffer is turned
        into a nil error. */
    method Read(out: array<byte>) returns (n: nat, e: Option<IoError>)
      modifies this, out
      ensures n == Min(out.Length, |old(buffer)|)
      ensures out[..n] == old(buffer)[..n]
      ensures out[n..] == old(out[n..])
      ensures buffer == old(buffer)[n..]
      ensures e == None
    {
      // bytes.Buffer.Read
      if |buffer| == 0 {
        n := 0;
        e := if out.Length == 0 then None else Some(Eof);
      } else {
        n := Min(out.Length, |buffer|);
        for k := 0 to n
          modifies out
          invariant out[..k] == buffer[..k]
          invariant out[n..] == old(out[n..])
        {
          out[k] := buffer[k];
        }
        buffer := buffer[n..];
        e := None;
      }
      if e == Some(Eof) {
        e := None;
      }
    }

    /** `Write` appends all of `out` and never fails. */
    method Write(out: seq<byte>) returns (n: nat, e: Option<IoError>)
      modifies this
      ensures buffer == old(buffer) + out
      ensures n == |out| && e == None
    {
      buffer := buffer + out;
      n, e := |out|, None;
    }

    /** `WriteString` appends the bytes of `s` and never fails. */
    method WriteString(s: seq<byte>) returns (n: nat, e: Option<IoError>)
      modifies this
      ensures buffer == old(buffer) + s
      ensures n == |s| && e == None
    {
      buffer := buffer + s;
      n, e := |s|, None;
    }
  }

  /** Writing "te" and "st", then reading through 's', gives "tes" and
      leaves "t" for `ReadNow`. */
  method DelimiterJoinsWrites()
  {
    var stdout := new Writable.Stdout();
    var _, _ := stdout.Write([116, 101]);
    var _, _ := stdout.Write([115, 116]);
    assert stdout.buffer == [116, 101, 115, 116];
    assert IndexOf(stdout.buffer, 115) == 2;
    var val, err, _ := stdout.ReadUntil(115, []);
    assert val == [116, 101, 115] && err == None;
    assert stdout.buffer == (val + stdout.buffer)[3..];
    var rest := stdout.ReadNow();
    assert rest == [116];
    var again := stdout.ReadNow();
    assert again == [];
  }

  /** "ab" is written, no write follows before the timeout: reading until
      'd' returns "ab" with `io.EOF`, and a later "cd" is left for `ReadNow`. */
  method TimeoutReturnsPartialOutput()
  {
    var stdout := new Writable.Stdout();
    var _, _ := stdout.Write([97, 98]);
    var val, err, used := stdout.ReadUntil(100, [Timeout]);
    assert val + stdout.buffer == [97, 98];
    assert forall i :: 0 <= i < |val| ==> val[i] == (val + stdout.buffer)[i] && val[i] != 100;
    assert 100 !in val;
    assert err != None;
    assert err == Some(Eof);
    var _, _ := stdout.Write([99, 100]);
    var rest := stdout.ReadNow();
    assert val + rest == [97, 98, 99, 100];
  }

  /** A write that lands while the reader is busy loses its wake-up: "b"
      arrives, nobody is woken, and the timeout returns "a" with `io.EOF`
      although the delimiter is already in the buffer. */
  method DroppedWakeUpLeavesDelimiter()
  {
    var stdout := new Writable.Stdout();
    var _, _ := stdout.Write([97]);
    ghost var events := [Arrive([98], false), Timeout];
    assert Waiting(98, events, 0, [97], []) == Waiting(98, events, 1, [97], [98]);
    assert Waiting(98, events, 1, [97], [98]) == Outcome([97], Some(Eof), 2, [98]);
    var val, err, used := stdout.ReadUntil(98, [Arrive([98], false), Timeout]);
    assert val == [97] && err == Some(Eof) && used == 2;
    assert stdout.buffer == [98];
  }

  /** Four writes of "12", "34", "56" and "78" are read back by one read of
      eight bytes as "12345678". */
  method ReadsConcatenateWrites()
  {
    var stdin := new Readable.Stdin();
    var _, _ := stdin.WriteString([49, 50]);
    var _, _ := stdin.WriteString([51, 52]);
    var _, _ := stdin.WriteString([53, 54]);
    var _, _ := stdin.WriteString([55, 56]);
    var out := new byte[8];
    var n, e := stdin.Read(out);
    assert out[..] == out[..n];
    assert n == 8 && out[..] == [49, 50, 51, 52, 53, 54, 55, 56] && e == None;
    assert stdin.buffer == [];
  }

  /** A read that asks for more than is buffered gets what there is, and a
      shorter one leaves the remainder for the next. */
  method ReadsWhatIsBuffered()
  {
    var stdin := new Readable.Stdin();
    // a reader waiting on the empty buffer takes the first write before the
    // second one lands: the writer waits until its data is consumed
    var _, _ := stdin.Write([120, 121, 122]);
    var four := new byte[4];
    var n, e := stdin.Read(four);
    assert four[..n] == [120, 121, 122] && n == 3 && e == None;
    var _, _ := stdin.Write([97, 98, 99]);
    var one := new byte[1];
    n, e := stdin.Read(one);
    assert one[..] == one[..n];
    assert one[..] == [97] && stdin.buffer == [98, 99];
    var ten := new byte[10];
    n, e := stdin.Read(ten);
    assert ten[..n] == [98, 99] && n == 2;
    assert stdin.buffer == [];
  }
}
