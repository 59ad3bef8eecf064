/** The reply framing of collectd's text control protocol, as the client
    reads it: a status line `<count> <text>\n`, then, for a count n >= 0,
    exactly n further lines. The reader is the part of the stream not yet
    consumed; every function here says what one read returns and what it
    leaves unread. */
module Framing {
  import opened Text

  /** Transport failures: the client wraps each of them in an IOError. */
  datatype IOFailure =
    | WriteFailed      // the writer did not take the command line
    | MalformedStatus  // the status line does not start with `<integer> `
    | EndOfStream      // the stream ended before the next '\n'

  /** What a protocol-level Error reports. */
  datatype Reason =
    | Daemon(message: string)     // status text of a reply with a negative count
    | BadValue(text: string)      // a GETVAL value the float parser rejected
    | BadTimestamp(text: string)  // a LISTVAL timestamp without a leading integer

  /** The client's two error kinds: a transport failure that likely leaves
      the connection unusable, and an error reported by the daemon or found
      while interpreting its reply. */
  datatype Failure = IOError(io: IOFailure) | Error(reason: Reason)

  /** bufio.Reader.ReadString('\n') followed by the client's
      `resp[:len(resp)-1]`: the line before the first '\n', which is
      consumed, and the rest of the stream. When the stream ends first
      (`found` is false) the read fails and everything is consumed. */
  function NextLine(s: string): (p: Piece)
    ensures '\n' !in p.head
  {
    BreakFirst(s, '\n');
    Break(s, '\n')
  }

  /** What fmt.Fscanf(r, "%d ", &num) leaves: the count and the stream
      after its space, or the stream after what the scanner consumed. */
  datatype StatusScan = Count(num: int, rest: string) | NoCount(rest: string)

  /** The count that opens a status line: an int-sized "%d" followed by a
      space, both consumed. */
  function StatusCount(s: string): (r: StatusScan)
    ensures r.Count? ==> InInt64(r.num)
  {
    var n := ScanInt64(s, 0);
    if n.value.Some? && n.next < |s| && s[n.next] == ' ' then Count(n.value.value, s[n.next + 1..])
    else NoCount(s[n.next..])
  }

  /** The first lines of a reply body that could be read, whether all
      requested lines were read, and what is left unread. */
  datatype Batch = Batch(lines: seq<string>, complete: bool, rest: string)

  /** Reading n lines one after another, each without its '\n', stopping at
      the first read that hits the end of the stream. */
  function ReadLines(s: string, n: nat): (b: Batch)
    ensures b.complete ==> |b.lines| == n
    ensures !b.complete ==> |b.lines| < n && b.rest == []
    decreases n
  {
    if n == 0 then Batch([], true, s)
    else
      var b := ReadLines(s, n - 1);
      if !b.complete then b
      else
        var l := NextLine(b.rest);
        if l.found then Batch(b.lines + [l.head], true, l.tail)
        else Batch(b.lines, false, l.tail)
  }

  /** n empty strings: the entries of a reply that were never read. */
  function Blanks(n: nat): (r: seq<string>)
    ensures |r| == n
  {
    seq(n, _ => "")
  }

  /** What the client makes of one reply: the lines (None for Go's nil
      slice), the error if any, and what is left unread. */
  datatype Reply = Reply(lines: Option<seq<string>>, err: Option<Failure>, rest: string)

  /** readResponse on the unread stream `s`. */
  function Response(s: string): (r: Reply)
    ensures r.err.None? ==> r.lines.Some?
    ensures r.lines.Some? ==> StatusCount(s).Count? && |r.lines.value| == StatusCount(s).num
    ensures r.err.Some? && r.err.value.Error? ==>
              r.lines.None? && StatusCount(s).Count? && StatusCount(s).num < 0
    ensures r.lines.Some? && r.err.Some? ==> r.err == Some(IOError(EndOfStream)) && r.rest == []
  {
    match StatusCount(s)
    case NoCount(rest) => Reply(None, Some(IOError(MalformedStatus)), rest)
    case Count(num, rest) =>
      var status := NextLine(rest);
      if !status.found then Reply(None, Some(IOError(EndOfStream)), status.tail)
      else if num < 0 then Reply(None, Some(Error(Daemon(status.head))), status.tail)
      else
        var b := ReadLines(status.tail, num);
        if b.complete then Reply(Some(b.lines), None, b.rest)
        else Reply(Some(b.lines + Blanks(num - |b.lines|)), Some(IOError(EndOfStream)), b.rest)
  }

  /** SendCommand as seen from the reader: a failed write reads nothing. */
  function Exchange(writeFails: bool, s: string): (r: Reply)
    ensures writeFails ==> r == Reply(None, Some(IOError(WriteFailed)), s)
    ensures !writeFails ==> r == Response(s)
  {
    if writeFails then Reply(None, Some(IOError(WriteFailed)), s) else Response(s)
  }

  /** What SendCommand writes for `command`: the line and its '\n', or
      nothing when the write fails. */
  function Written(writeFails: bool, command: string): (r: string)
    ensures writeFails <==> r == []
    ensures !writeFails ==> |r| == |command| + 1 && r[..|command|] == command && r[|command|] == '\n'
  {
    if writeFails then "" else command + "\n"
  }

  /** The reply lines a caller receives without error all contain `sep`. */
  predicate LinesSeparated(r: Reply, sep: char) {
    r.err.None? && r.lines.Some? ==> Separated(r.lines.value, sep)
  }

  // ---------------------------------------------------------------------
  // The daemon's side of the framing: the text of a reply.

  predicate NoNewline(s: string) {
    '\n' !in s
  }

  predicate NoNewlines(lines: seq<string>) {
    forall i :: 0 <= i < |lines| ==> NoNewline(lines[i])
  }

  /** The status line `<num> <text>\n`. */
  function StatusLine(num: int, text: string): string {
    IntToString(num) + " " + text + "\n"
  }

  /** Each line followed by its '\n'. */
  function Terminated(lines: seq<string>): string
    decreases |lines|
  {
    if lines == [] then "" else Terminated(lines[..|lines| - 1]) + lines[|lines| - 1] + "\n"
  }

  /** ReadString returns a line that heads the stream and leaves exactly
      what follows its '\n'. */
  lemma NextLineOf(line: string, rest: string)
    requires NoNewline(line)
    ensures NextLine(line + "\n" + rest) == Piece(line, true, rest)
  {
    BreakAt(line, '\n', rest);
  }

  /** Lines that head the stream one after another are read back as they
      were written, and exactly what follows them is left. */
  lemma {:induction false} ReadLinesOf(lines: seq<string>, rest: string)
    requires NoNewlines(lines)
    ensures ReadLines(Terminated(lines) + rest, |lines|) == Batch(lines, true, rest)
    decreases |lines|
  {
    if lines != [] {
      var init := lines[..|lines| - 1];
      var last := lines[|lines| - 1];
      Regroup(Terminated(init) + last, "\n", rest);
      Regroup(Terminated(init), last, "\n" + rest);
      Regroup(last, "\n", rest);
      ReadLinesOf(init, last + "\n" + rest);
      NextLineOf(last, rest);
      assert init + [last] == lines;
    }
  }

  /** A count printed by strconv.Itoa and followed by a space is scanned
      back, and the scan leaves what follows the space. */
  lemma CountOf(num: int, after: string)
    requires InInt64(num)
    ensures StatusCount(IntToString(num) + " " + after) == Count(num, after)
  {
    var t := IntToString(num);
    var s := t + " " + after;
    assert s[0..|t|] == t;
    assert s[|t|] == ' ';
    ScanIntToString(num, s, 0);
    assert s[|t| + 1..] == after;
  }

  /** A status line that heads the stream yields its count, then its text. */
  lemma StatusOf(num: int, text: string, rest: string)
    requires InInt64(num) && NoNewline(text)
    ensures StatusCount(StatusLine(num, text) + rest) == Count(num, text + "\n" + rest)
    ensures NextLine(text + "\n" + rest) == Piece(text, true, rest)
  {
    var t := IntToString(num);
    Regroup(t + " " + text, "\n", rest);
    Regroup(t + " ", text, "\n" + rest);
    Regroup(text, "\n", rest);
    CountOf(num, text + "\n" + rest);
    NextLineOf(text, rest);
  }

  /** The reply the client builds once the status line is read and the
      count is n >= 0. */
  lemma BodyOf(s: string, num: int, body: string)
    requires StatusCount(s).Count? && StatusCount(s).num == num && num >= 0
    requires NextLine(StatusCount(s).rest).found && NextLine(StatusCount(s).rest).tail == body
    ensures var b := ReadLines(body, num);
            Response(s) == if b.complete then Reply(Some(b.lines), None, b.rest)
                           else Reply(Some(b.lines + Blanks(num - |b.lines|)), Some(IOError(EndOfStream)), b.rest)
  {
  }

  /** The status line of `s` announces n lines and its text is followed by
      `body`. */
  predicate Announces(s: string, num: int, body: string) {
    && StatusCount(s).Count? && StatusCount(s).num == num
    && NextLine(StatusCount(s).rest).found && NextLine(StatusCount(s).rest).tail == body
  }

  /** A status line that heads the stream announces its count. */
  lemma AnnouncesOf(num: int, text: string, body: string)
    requires InInt64(num) && NoNewline(text)
    ensures Announces(StatusLine(num, text) + body, num, body)
  {
    StatusOf(num, text, body);
  }

  /** A well-formed reply with a count n >= 0 is read as exactly its n
      lines, without error, and what follows the reply is left unread. */
  lemma SuccessReply(text: string, lines: seq<string>, rest: string)
    requires |lines| <= MaxInt64 && NoNewline(text) && NoNewlines(lines)
    ensures Response(StatusLine(|lines|, text) + (Terminated(lines) + rest)) == Reply(Some(lines), None, rest)
  {
    var body := Terminated(lines) + rest;
    StatusOf(|lines|, text, body);
    ReadLinesOf(lines, rest);
    BodyOf(StatusLine(|lines|, text) + body, |lines|, body);
  }

  /** A reply with a negative count is the daemon's error: its message is
      the status text, and no further line is read. */
  lemma ErrorReply(num: int, text: string, rest: string)
    requires num < 0 && InInt64(num) && NoNewline(text)
    ensures Response(StatusLine(num, text) + rest) == Reply(None, Some(Error(Daemon(text))), rest)
  {
    StatusOf(num, text, rest);
  }

  /** Once a batch stops short, asking for more lines changes nothing. */
  lemma {:induction false} ShortBatchStays(s: string, m: nat, n: nat)
    requires m <= n && !ReadLines(s, m).complete
    ensures ReadLines(s, n) == ReadLines(s, m)
    decreases n
  {
    if m < n {
      ShortBatchStays(s, m, n - 1);
    }
  }

  /** A body that ends after k < n complete lines is read as those k
      lines, and the reader stops short with nothing left. */
  lemma ShortBody(lines: seq<string>, partial: string, num: nat)
    requires |lines| < num && NoNewlines(lines) && NoNewline(partial)
    ensures ReadLines(Terminated(lines) + partial, num) == Batch(lines, false, [])
  {
    var body := Terminated(lines) + partial;
    ReadLinesOf(lines, partial);
    assert !NextLine(partial).found by {
      BreakFirst(partial, '\n');
    }
    assert ReadLines(body, |lines| + 1) == Batch(lines, false, []);
    ShortBatchStays(body, |lines| + 1, num);
  }

  /** A stream that ends inside the body, after k < n complete lines, gives
      n lines, the k read followed by empty strings, and an EndOfStream
      transport error. */
  lemma ShortReply(num: int, text: string, lines: seq<string>, partial: string)
    requires |lines| < num && InInt64(num) && NoNewline(text) && NoNewlines(lines) && NoNewline(partial)
    ensures Response(StatusLine(num, text) + (Terminated(lines) + partial))
              == Reply(Some(lines + Blanks(num - |lines|)), Some(IOError(EndOfStream)), [])
  {
    var body := Terminated(lines) + partial;
    AnnouncesOf(num, text, body);
    ShortBody(lines, partial, num);
    Truncated(StatusLine(num, text) + body, num, lines, body);
  }

  /** A body that stops short gives its lines padded with empty strings. */
  lemma Truncated(s: string, num: int, lines: seq<string>, body: string)
    requires Announces(s, num, body) && num >= |lines|
    requires ReadLines(body, num) == Batch(lines, false, [])
    ensures Response(s) == Reply(Some(lines + Blanks(num - |lines|)), Some(IOError(EndOfStream)), [])
  {
    BodyOf(s, num, body);
  }

  /** A status line that opens with neither a sign nor a digit is a
      transport error, and nothing of the stream is consumed. */
  lemma NoLeadingInteger(s: string)
    requires s == [] || (!IsDigit(s[0]) && s[0] != '+' && s[0] != '-')
    ensures Response(s) == Reply(None, Some(IOError(MalformedStatus)), s)
  {
    assert s[0..] == s;
  }

  /** A status line that the stream ends inside is a transport error, and
      the whole stream is consumed. */
  lemma UnterminatedStatus(num: int, text: string)
    requires InInt64(num) && NoNewline(text)
    ensures Response(IntToString(num) + " " + text) == Reply(None, Some(IOError(EndOfStream)), [])
  {
    CountOf(num, text);
    BreakNone(text, '\n');
  }

  /** A count followed by anything but a space is a transport error; the
      count's characters are consumed. */
  lemma CountWithoutSpace(num: int, c: char, rest: string)
    requires InInt64(num) && c != ' ' && !IsDigit(c)
    ensures Response(IntToString(num) + [c] + rest) == Reply(None, Some(IOError(MalformedStatus)), [c] + rest)
  {
    var t := IntToString(num);
    var s := t + [c] + rest;
    assert s[0..|t|] == t;
    assert s[|t|] == c;
    ScanIntToString(num, s, 0);
    assert s[|t|..] == [c] + rest;
  }

  /** Two identical replies in a row are read identically: the first read
      leaves exactly the second reply. */
  lemma RepeatedReply(text: string, lines: seq<string>, rest: string)
    requires |lines| <= MaxInt64 && NoNewline(text) && NoNewlines(lines)
    ensures var reply := StatusLine(|lines|, text) + Terminated(lines);
            var first := Response(StatusLine(|lines|, text) + (Terminated(lines) + (reply + rest)));
            && first == Reply(Some(lines), None, reply + rest)
            && Response(first.rest) == first.(rest := rest)
  {
    var reply := StatusLine(|lines|, text) + Terminated(lines);
    SuccessReply(text, lines, reply + rest);
    Regroup(StatusLine(|lines|, text), Terminated(lines), rest);
    SuccessReply(text, lines, rest);
  }
}
