/** The client connection: a reader over what the daemon sends and a
    writer that collects what the client sends. Each method follows the
    steps of its Go counterpart and is proved to return what the
    specification functions of Framing and Commands say. */
module Collectd {
  import opened Text
  import opened Framing
  import opened Commands

  /** mapToKV: the options visited in `order`, as `k="v"` texts joined by
      spaces. */
  method MapToKV(opts: map<string, string>, order: seq<string>) returns (kv: string)
    requires IsEnumeration(order, opts)
    ensures kv == KVText(opts, order)
  {
    var parts: seq<string> := [];
    var i := 0;
    while i < |order|
      invariant 0 <= i <= |order| && |parts| == i
      invariant forall j :: 0 <= j < i ==> parts[j] == Assignment(order[j], opts[order[j]])
    {
      var k := order[i];
      parts := parts + [Assignment(k, opts[k])];
      i := i + 1;
    }
    assert parts == KVParts(opts, order);
    kv := Join(parts, ' ');
  }

  /** The loop of GetValue and ListValues over the reply lines: each line
      split at its first `sep` (strings.SplitN(line, sep, 2)), its field
      parsed and stored under its key, until a field does not parse. Go
      indexes the second half of the split, so a line without `sep` would
      panic: every line has one. */
  method GatherLines<V>(lines: seq<string>, sep: char, keyLeft: bool, parse: string -> Option<V>)
    returns (c: Collected<V>)
    requires Separated(lines, sep)
    ensures c == Gather(lines, sep, keyLeft, parse)
  {
    var ret: map<string, V> := map[];
    var i := 0;
    while i < |lines|
      invariant 0 <= i <= |lines|
      invariant Gather(lines[..i], sep, keyLeft, parse) == Collected(ret, None)
    {
      var fields := Break(lines[i], sep);
      BreakFirst(lines[i], sep);
      assert fields.found;
      assert lines[..i + 1][..i] == lines[..i];
      var key, field := fields.head, fields.tail;
      if !keyLeft {
        key, field := fields.tail, fields.head;
      }
      var v := parse(field);
      if v.None? {
        GatherOk(lines[..i], sep, keyLeft, parse);
        GatherStops(lines, sep, keyLeft, parse, i);
        return Collected(ret, Some(field));
      }
      ret := ret[key := v.value];
      i := i + 1;
    }
    assert lines[..i] == lines;
    return Collected(ret, None);
  }

  /** A connection: `unread` is what the buffered reader has not consumed
      yet, `output` everything written so far. A writer that fails takes
      no command at all. */
  class Conn {
    var unread: string
    var output: string
    const writeFails: bool

    constructor (input: string, writeFails: bool)
      ensures unread == input && output == [] && this.writeFails == writeFails
    {
      unread := input;
      output := [];
      this.writeFails := writeFails;
    }

    /** ReadString('\n') without its '\n'; `ok` is false when the stream
        ends first. */
    method ReadLine() returns (line: string, ok: bool)
      modifies this`unread
      ensures Piece(line, ok, unread) == NextLine(old(unread))
    {
      var p := NextLine(unread);
      line, ok, unread := p.head, p.found, p.tail;
    }

    /** readResponse: the status line, then as many lines as it announces. */
    method ReadResponse() returns (lines: Option<seq<string>>, err: Option<Failure>)
      modifies this`unread
      ensures Reply(lines, err, unread) == Response(old(unread))
    {
      ghost var s := unread;
      var scan := StatusCount(unread);
      unread := scan.rest;
      if scan.NoCount? {
        return None, Some(IOError(MalformedStatus));
      }
      var num := scan.num;
      var status, ok := ReadLine();
      if !ok {
        return None, Some(IOError(EndOfStream));
      }
      if num < 0 {
        return None, Some(Error(Daemon(status)));
      }
      BodyOf(s, num, unread);
      var out, complete := ReadBody(num);
      if !complete {
        return Some(out[..]), Some(IOError(EndOfStream));
      }
      return Some(out[..]), None;
    }

    /** The loop of readResponse: `out` has room for all `num` lines, each
        read in turn; a read that hits the end of the stream stops the
        loop and leaves the remaining entries empty. */
    method ReadBody(num: nat) returns (out: array<string>, complete: bool)
      modifies this`unread
      ensures fresh(out)
      ensures var b := ReadLines(old(unread), num);
              && complete == b.complete && unread == b.rest
              && out[..] == if complete then b.lines else b.lines + Blanks(num - |b.lines|)
    {
      ghost var body := unread;
      out := new string[num](_ => "");
      var i := 0;
      while i < num
        invariant 0 <= i <= num
        invariant ReadLines(body, i) == Batch(out[..i], true, unread)
        invariant forall j :: i <= j < num ==> out[j] == ""
      {
        var resp, more := ReadLine();
        if !more {
          ShortBatchStays(body, i + 1, num);
          assert out[..] == out[..i] + Blanks(num - i);
          return out, false;
        }
        out[i] := resp;
        assert out[..i + 1] == out[..i] + [resp];
        i := i + 1;
      }
      assert out[..] == out[..num];
      return out, true;
    }

    /** SendCommand: write the command and its '\n', then read the reply;
        a failed write is a transport error and nothing is read. */
    method SendCommand(command: string) returns (lines: Option<seq<string>>, err: Option<Failure>)
      modifies this
      ensures output == old(output) + Written(writeFails, command)
      ensures Reply(lines, err, unread) == Exchange(writeFails, old(unread))
    {
      if writeFails {
        return None, Some(IOError(WriteFailed));
      }
      output := output + (command + "\n");
      lines, err := ReadResponse();
    }

    /** GetValue: each reply line `name=value` split at its first '=', the
        value parsed by `parseFloat`; the first value that does not parse
        ends the loop with an Error and the entries gathered before it. */
    method GetValue<F>(name: string, parseFloat: string -> Option<F>)
      returns (values: Option<map<string, F>>, err: Option<Failure>)
      requires !writeFails ==> LinesSeparated(Response(unread), '=')
      modifies this
      ensures output == old(output) + Written(writeFails, GetvalCommand(name))
      ensures unread == Exchange(writeFails, old(unread)).rest
      ensures (values, err) == ValuesOf(Exchange(writeFails, old(unread)), parseFloat)
    {
      var res, e := SendCommand(GetvalCommand(name));
      if e.Some? {
        return None, e;
      }
      var c := GatherLines(res.value, '=', true, parseFloat);
      GatherOk(res.value, '=', true, parseFloat);
      if c.bad.Some? {
        return Some(c.entries), Some(Error(BadValue(c.bad.value)));
      }
      return Some(c.entries), None;
    }

    /** ListValues: each reply line `time identifier` split at its first
        space, the time read as `<sec>.<msec>`; the first time without a
        leading integer ends the loop with an Error and a nil map. */
    method ListValues() returns (times: Option<map<string, Time>>, err: Option<Failure>)
      requires !writeFails ==> LinesSeparated(Response(unread), ' ')
      modifies this
      ensures output == old(output) + Written(writeFails, "LISTVAL")
      ensures unread == Exchange(writeFails, old(unread)).rest
      ensures (times, err) == TimesOf(Exchange(writeFails, old(unread)))
    {
      var res, e := SendCommand("LISTVAL");
      if e.Some? {
        return None, e;
      }
      var c := GatherLines(res.value, ' ', false, ParseTimestamp);
      GatherOk(res.value, ' ', false, ParseTimestamp);
      if c.bad.Some? {
        return None, Some(Error(BadTimestamp(c.bad.value)));
      }
      return Some(c.entries), None;
    }

    /** PutValue: the timestamp field ("N" without a time), then each value
        as `render` prints it, joined with ':' after the name and options. */
    method PutValue<V>(name: string, opts: map<string, string>, order: seq<string>,
                       t: Option<Time>, values: seq<V>, render: V -> string)
      returns (err: Option<Failure>)
      requires IsEnumeration(order, opts)
      modifies this
      ensures output == old(output)
                        + Written(writeFails, PutvalCommand(name, KVText(opts, order), ValueFields(t, values, render)))
      ensures err == Exchange(writeFails, old(unread)).err
      ensures unread == Exchange(writeFails, old(unread)).rest
    {
      var value: seq<string>;
      if t.Some? {
        value := [IntToString(t.value.sec)];
      } else {
        value := ["N"];
      }
      var i := 0;
      while i < |values|
        invariant 0 <= i <= |values|
        invariant value == ValueFields(t, values[..i], render)
      {
        assert values[..i + 1][..i] == values[..i];
        value := value + [render(values[i])];
        i := i + 1;
      }
      assert values[..i] == values;
      var kv := MapToKV(opts, order);
      var _, e := SendCommand(PutvalCommand(name, kv, value));
      return e;
    }

    /** PutNotif: the options, then the message as a `message="..."` option. */
    method PutNotif(opts: map<string, string>, order: seq<string>, message: string)
      returns (err: Option<Failure>)
      requires IsEnumeration(order, opts)
      modifies this
      ensures output == old(output) + Written(writeFails, PutnotifCommand(KVText(opts, order), message))
      ensures err == Exchange(writeFails, old(unread)).err
      ensures unread == Exchange(writeFails, old(unread)).rest
    {
      var kv := MapToKV(opts, order);
      var _, e := SendCommand(PutnotifCommand(kv, message));
      return e;
    }

    /** Flush: the verb and the timeout, one option per plugin, then one
        per identifier, joined by spaces. */
    method Flush(timeout: int, plugins: seq<string>, identifiers: seq<string>)
      returns (err: Option<Failure>)
      modifies this
      ensures output == old(output) + Written(writeFails, FlushCommand(timeout, plugins, identifiers))
      ensures err == Exchange(writeFails, old(unread)).err
      ensures unread == Exchange(writeFails, old(unread)).rest
    {
      var parts := ["FLUSH", "timeout=" + IntToString(timeout)];
      var i := 0;
      while i < |plugins|
        invariant 0 <= i <= |plugins|
        invariant parts == ["FLUSH", "timeout=" + IntToString(timeout)] + Assignments("plugin", plugins[..i])
      {
        assert plugins[..i + 1][..i] == plugins[..i];
        parts := parts + [Assignment("plugin", plugins[i])];
        i := i + 1;
      }
      assert plugins[..i] == plugins;
      var j := 0;
      while j < |identifiers|
        invariant 0 <= j <= |identifiers|
        invariant parts == ["FLUSH", "timeout=" + IntToString(timeout)] + Assignments("plugin", plugins)
                           + Assignments("identifier", identifiers[..j])
      {
        assert identifiers[..j + 1][..j] == identifiers[..j];
        parts := parts + [Assignment("identifier", identifiers[j])];
        j := j + 1;
      }
      assert identifiers[..j] == identifiers;
      assert parts == FlushParts(timeout, plugins, identifiers);
      var _, e := SendCommand(Join(parts, ' '));
      return e;
    }
  }
}
