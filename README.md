# collectd control-socket client, modelled in Dafny

This project models the Go client for collectd's text control protocol (the
"unixsock" plugin protocol), `collectd.go`. A client writes one command line and
reads a reply. The reply opens with a status line `<count> <text>`:
- a negative count is an error that the daemon reports, and its text is the message;
- a count n >= 0 is followed by exactly n reply lines.

On top of that exchange the client builds these commands:
- `GETVAL "<id>"`;
- `LISTVAL`;
- `PUTVAL "<id>" <options> <time>:<v1>:...`;
- `PUTNOTIF <options> message="<text>"`;
- `FLUSH timeout=<t> plugin="..." identifier="..."`.

It also turns the reply lines of `GETVAL` and `LISTVAL` into maps.

The model has four modules:
- `Text`:
  - decimal integers, as `strconv.Itoa` prints them and as fmt's `%d` scans them;
  - int64 wrap-around;
  - `strings.Join`, and `strings.SplitN(s, sep, 2)` for a one-character separator (`Break`);
  - the daemon-side `Split` used as a partner of `Join`.
- `Framing`:
  - the two error kinds: `IOError`, a transport failure, and `Error`, a protocol failure;
  - the reply reader as functions over the unread stream (`StatusCount`, `ReadLines`, `Response`, `Exchange`);
  - the daemon's side of the framing (`StatusLine`, `Terminated`);
  - lemmas that read every kind of reply back.
- `Commands`:
  - the command texts;
  - the daemon-side reader of `k="v"` options (`ParseKV`), as the partner of `mapToKV`;
  - the generic loop over reply lines (`Gather`) and what `GetValue` and `ListValues` return (`ValuesOf`, `TimesOf`);
  - `time.Unix`, and the `LISTVAL` timestamp reader.
- `Collectd`:
  - the `Conn` class. Its field `unread` is what the buffered reader has not consumed, `output` is everything written, and `writeFails` is a writer that refuses commands;
  - methods with the loops of the Go code. Each method is proved to return exactly what the specification functions say, and to leave exactly the state they say.

A few modelling choices:
- Go's nil slice or map is `None`, and a non-nil one is `Some`.
- A map that Go ranges over is visited in an explicit `order`, which lists every key once (`IsEnumeration`).
- Float parsing and `%v` rendering are function parameters.

Behaviour of the code worth knowing, all proved here:
- A reply that ends after k < n lines still gives n lines: the k lines read, then empty strings, together with an `IOError` (`Framing.ShortReply`).
- `GetValue` returns the map built so far together with the error for the first value that does not parse. `ListValues` returns a nil map when a timestamp does not parse.
- The fraction of a `LISTVAL` time is read as a whole number of milliseconds, with `%d`:
  - `1.500`, which is how collectd prints times (`%.3f`), is 1.5 s;
  - `1.5` is 1 s and 5 ms (`Commands.FractionIsMillis`).
- Values are put between double quotes, but nothing is escaped. An option value that holds `" k="` writes the same text as two options (`Commands.QuotesNotEscaped`).
- An empty options map puts two spaces in `PUTVAL` and `PUTNOTIF` (`Commands.PutvalNoOptions`, `Commands.PutnotifNoOptions`).
- A `LISTVAL` fraction of 1000 or more milliseconds carries into the seconds: `5.1500` is 6.5 s (`Commands.FractionCarries`). A bare `5.` is 5 s (`Commands.BareDot`).

In three places the model follows the code where a reader of the protocol might expect otherwise:
- Option values are not escaped.
- `ListValues` returns no partial map.
- A reply line that lacks its separator makes the code panic. The model states this as a precondition; see below.

## Model

| member | source | states |
|---|---|---|
| Collectd.MapToKV | collectd.go:117-125 | the loop yields the options in the visiting order as `k="v"` texts joined by single spaces (`KVText`) |
| Collectd.GatherLines | collectd.go:104-112 | the loop over reply lines splits each line at its first separator, stores the parsed field under its key, and stops at the first field that does not parse, exactly as `Gather` specifies |
| Collectd.Conn.constructor | collectd.go:14-17 | a connection starts with its whole input unread and nothing written |
| Collectd.Conn.ReadLine | collectd.go:75-80 | one `ReadString('\n')` without its newline: the line, whether a newline ended it, and the stream after it |
| Collectd.Conn.ReadResponse | collectd.go:59-84 | the reply returned and the stream left unread are exactly `Response` of the old unread stream |
| Collectd.Conn.ReadBody | collectd.go:73-83 | fills a fresh array of n lines in order; a read that hits the end of the stream stops the loop and leaves the rest empty (`ReadLines`) |
| Collectd.Conn.SendCommand | collectd.go:87-94 | the writer gets exactly `command + "\n"`, or nothing when the write fails; the reply is that of `Exchange`, and a failed write consumes no input |
| Collectd.Conn.GetValue | collectd.go:98-115 | writes `GETVAL "<name>"`; the result is `ValuesOf` of the exchange |
| Collectd.Conn.ListValues | collectd.go:158-181 | writes `LISTVAL`; the result is `TimesOf` of the exchange |
| Collectd.Conn.PutValue | collectd.go:131-148 | writes `PUTVAL` with the options text and the timestamp and rendered values joined by ':'; returns the exchange's error |
| Collectd.Conn.PutNotif | collectd.go:151-154 | writes `PUTNOTIF <kv> message="<message>"`; returns the exchange's error |
| Collectd.Conn.Flush | collectd.go:186-196 | writes `FLUSH`, the timeout, one `plugin="p"` per plugin, then one `identifier="i"` per identifier, joined by spaces; returns the exchange's error |
| Framing.NextLine | collectd.go:65-68 | `ReadString('\n')` without its newline: the line read never holds a newline (with `Break`'s contract: the stream was the line, a newline and the rest, or, when the read fails, the whole stream) |
| Framing.Written | collectd.go:88-90 | a failed write sends nothing; otherwise exactly the command followed by one newline |
| Framing.StatusCount | collectd.go:60-64 | a count scanned by `%d` is an int64 |
| Framing.ReadLines | collectd.go:73-81 | a complete batch has exactly n lines; an incomplete one has fewer and has consumed the whole stream |
| Framing.Response | collectd.go:59-84 | without error there are lines; lines mean a status count and exactly that many entries; a protocol Error means a negative count and nil lines; lines together with an error only ever mean a stream that ended |
| Framing.Exchange | collectd.go:87-94 | a failed write is an IOError that reads nothing; otherwise the reply is `Response` |
| Framing.NextLineOf | collectd.go:65-68 | a line that heads the stream is read back and exactly what follows its newline is left |
| Framing.ReadLinesOf | collectd.go:74-81 | n newline-terminated lines are read back in order, without their newlines, and exactly the text after them is left |
| Framing.CountOf | collectd.go:61-64 | a count printed by `Itoa` and followed by a space is scanned back, and the scan leaves what follows the space |
| Framing.StatusOf | collectd.go:61-68 | a status line yields its count, then its text |
| Framing.AnnouncesOf | collectd.go:61-68 | a status line at the head of the stream announces its count and is followed by the body |
| Framing.SuccessReply | collectd.go:73-83 | a well-formed reply with n >= 0 lines gives exactly those lines, no error, and leaves what follows the reply |
| Framing.ErrorReply | collectd.go:69-71 | a negative count gives nil lines and an Error carrying the status text; nothing after the status line is read |
| Framing.ShortBatchStays | collectd.go:74-78 | once a batch stops short, asking for more lines changes nothing |
| Framing.ShortBody | collectd.go:74-78 | a body that ends after k < n lines is read as those k lines and stops with nothing left |
| Framing.ShortReply | collectd.go:73-78 | a stream that ends after k < n lines gives n entries (the k lines, then empty strings) and an EndOfStream IOError |
| Framing.Truncated | collectd.go:73-78 | a body that stops short gives its lines padded with empty strings and an IOError |
| Framing.NoLeadingInteger | collectd.go:61-64 | a status line that opens with neither a sign nor a digit is an IOError, and nothing is consumed |
| Framing.CountWithoutSpace | collectd.go:61-64 | a count followed by anything but a space is an IOError, and the count's characters are consumed |
| Framing.UnterminatedStatus | collectd.go:65-68 | a status line that the stream ends inside is an IOError, and the whole stream is consumed |
| Framing.RepeatedReply | collectd.go:59-84 | reading one reply leaves exactly the next one, so two identical replies in a row are read identically |
| Text.Wrap64 | collectd.go:176 | the int64 that two's-complement arithmetic leaves: in range, congruent modulo 2^64, and unchanged when already in range |
| Text.NatToString | collectd.go:187 | decimal digits without leading zeros whose value is the number |
| Text.IntToString | collectd.go:135 | a '-' exactly for negative numbers, then only digits |
| Text.ScanInt | collectd.go:167 | `%d` stops after a maximal digit run; a success consumed at least one digit; a failure consumed at most a sign |
| Text.ScanInt64 | collectd.go:166-167 | `%d` into an int64 succeeds exactly when `ScanInt` reads a value in range, and then gives that value; it stops where `ScanInt` stops |
| Text.ScanIntToString | collectd.go:135 | scanning what `Itoa` printed gives the number back and stops right after its last digit |
| Text.Break | collectd.go:106 | `SplitN(s, sep, 2)`: with a separator, s is head + separator + tail; without one, s is all head |
| Text.BreakFirst | collectd.go:106 | the head holds no separator, and a separator is found exactly when s holds one |
| Text.BreakAt | collectd.go:165 | a string that opens with a separator-free run and then the separator is cut right there |
| Text.BreakNone | collectd.go:165 | a string without the separator is not cut |
| Text.DigitsScan | collectd.go:167 | `%d` on a run of digits that fits in an int64 reads its value and stops at its end |
| Text.Join | collectd.go:124 | `strings.Join`: no parts give the empty text; the first part opens the text, and the separator follows it when there are more parts |
| Text.SplitJoin | collectd.go:124 | splitting a join on a separator that no part holds gives the parts back |
| Text.JoinSplit | collectd.go:124 | joining the pieces of a split restores the string |
| Text.JoinAppend | collectd.go:144-145 | joining two nonempty lists is joining each, with one separator between them |
| Text.JoinAvoids | collectd.go:145 | a join holds no character that neither its parts nor its separator hold |
| Commands.KVParts | collectd.go:120-122 | one `k="v"` text per key, at the key's position in the visiting order |
| Commands.ParseAssignmentsOf | collectd.go:117-125 | the daemon reads the options text back as the (key, value) pairs, in the visiting order |
| Commands.ParseAssignmentsThen | collectd.go:152 | the daemon reads the options and then goes on to whatever follows them |
| Commands.KVRoundTrip | collectd.go:117-125 | for any visiting order, the options text is read back as pairs that denote exactly the map |
| Commands.KVText | collectd.go:117-125 | what `mapToKV` returns for a visiting order; it is empty exactly when the map is |
| Commands.PairsMap | collectd.go:120-122 | the pairs of a visiting order denote the map restricted to the keys visited |
| Commands.QuotesNotEscaped | collectd.go:121 | a value holding `" k="` writes the same text as two separate options |
| Commands.GetvalCommand | collectd.go:99 | `GETVAL "<name>"`: the daemon cuts it at the first space into the verb and the quoted identifier |
| Commands.Quot | collectd.go:176 | Go's truncating `/` (used inside `time.Unix`): the quotient has the sign of the dividend, and its multiple of the divisor lies between 0 and the dividend, less than one divisor away |
| Commands.UnixTime | collectd.go:176 | `time.Unix`: nanoseconds in [0, 1e9) equal to nsec mod 1e9; the seconds are the int64 wrap of sec + nsec div 1e9 |
| Commands.Stamp | collectd.go:134-138 | "N" without a time; otherwise the Unix seconds, which `%d` scans back as exactly that number |
| Commands.Rendered | collectd.go:140-142 | one rendered text per value, in order |
| Commands.ValueFields | collectd.go:132-142 | one field more than there are values: the timestamp field, then each value as `render` prints it, in order |
| Commands.ValueFieldsSplit | collectd.go:132-145 | the value field splits at ':' back into the timestamp ("N" without a time, the Unix seconds otherwise) and the rendered values |
| Commands.PutvalCommand | collectd.go:144-145 | `PUTVAL` cut at its first space gives the verb, then the quoted name, the options text and the value fields joined by spaces |
| Commands.PutvalNoOptions | collectd.go:144-145 | with an empty options text, two spaces separate the quoted name and the value field |
| Commands.PutvalWords | collectd.go:144-145 | PUTVAL splits at spaces into the verb, the quoted name, one word per option and the value field |
| Commands.PutnotifCommand | collectd.go:152 | `PUTNOTIF` cut at its first space gives the verb, then the options text and the `message="..."` option joined by a space |
| Commands.PutnotifNoOptions | collectd.go:152 | with an empty options text, two spaces follow the verb |
| Commands.PutnotifRoundTrip | collectd.go:152 | PUTNOTIF is the verb followed by the options and the message option, and the daemon reads them all back in order |
| Commands.Assignments | collectd.go:188-193 | `key="v"` for each value, in order |
| Commands.FlushParts | collectd.go:187-193 | FLUSH has two words more than plugins and identifiers together: the verb, then `timeout=<t>` |
| Commands.FlushLayout | collectd.go:188-193 | after the verb and the timeout come one `plugin="p"` per plugin in order, then one `identifier="i"` per identifier in order; empty lists add nothing |
| Commands.FlushCommand | collectd.go:187-194 | FLUSH cut at its first space gives the verb, then the remaining words joined by spaces |
| Commands.FlushSplit | collectd.go:187-194 | FLUSH splits at spaces back into exactly those words when no plugin or identifier holds a space |
| Commands.FlushExample | collectd.go:186-194 | `Flush(-1, [], ["a"])` writes `FLUSH timeout=-1 identifier="a"` |
| Commands.Key | collectd.go:106-111 | no contract of its own: the key of a reply line, `Commands.KeyField` states what it is |
| Commands.Field | collectd.go:106-107 | no contract of its own: the text parsed from a reply line, `Commands.KeyField` states what it is |
| Commands.KeyField | collectd.go:105-111 | a line holding the separator is the key and the field on either side of its first separator, the left one free of it; a line without it is all key for GETVAL and all field for LISTVAL |
| Commands.Gather | collectd.go:104-112 | the loop over reply lines; a field it reports as bad is one the parser rejects |
| Commands.GatherOk | collectd.go:105-112 | the loop ends without error exactly when every field parses |
| Commands.GatherKeys | collectd.go:105-112 | when every field parses, the keys of the map are exactly the keys of the lines |
| Commands.GatherLast | collectd.go:105-111 | each key holds the value of the last line that has it, so a later duplicate overwrites an earlier one |
| Commands.GatherStops | collectd.go:107-110 | the first field that does not parse is reported, and the entries of the lines before it are kept |
| Commands.ValuesOf | collectd.go:98-115 | a send error passes through with a nil map; otherwise the map is non-nil, empty for an empty reply, and an error (a BadValue Error) occurs exactly when some value does not parse |
| Commands.ParseTimestamp | collectd.go:166-176 | a time exists exactly when a leading int64 parses, and its nanoseconds are within the second; the time itself is stated by `Commands.TimestampFraction`, `Commands.TimestampNoFraction` and `Commands.TimestampWhole` |
| Commands.TimestampOf | collectd.go:167-176 | `<sec>.<mmm>` is read as sec seconds and mmm milliseconds |
| Commands.TimestampFraction | collectd.go:166-176 | `<sec>.<digits>` followed by anything but a digit is sec seconds plus the digits' value as milliseconds, carried by `time.Unix`, with `msec*1e6` wrapped to int64 |
| Commands.TimestampNoFraction | collectd.go:167-176 | `<sec>.` followed by neither a sign nor a digit is whole seconds, as the `n == 1` fallback gives |
| Commands.FractionCarries | collectd.go:167-176 | `5.1500` is 6 s and 500 ms |
| Commands.BareDot | collectd.go:167-176 | `5.` is 5 s |
| Commands.TimestampWhole | collectd.go:167-170 | a time without a fraction is read as whole seconds |
| Commands.TimestampRejected | collectd.go:167-173 | a time that opens with neither a sign nor a digit is rejected |
| Commands.FractionIsMillis | collectd.go:167-176 | `1.500` is 1.5 s, while `1.5` is 1 s and 5 ms |
| Commands.ListvalLine | collectd.go:164-178 | a one-line reply `<sec>.<mmm> <id>` maps id to that time |
| Commands.TimesOf | collectd.go:158-181 | a send error passes through; a map exists exactly when there is no error and every time parses; a time that does not parse is a BadTimestamp Error with a nil map |

## Left out

- `DialUnix`, `New` and `Close` (collectd.go:39-57 and 198-203) are socket resolution, dialling and closing. They are left out. A connection is built from its whole future input and a write-failure flag.
- The `Error()` methods and the Go error messages ("Could not parse value %q: %s") are left out. An error carries its kind and the offending text: the status text, the value or the timestamp.
- Transport errors are told apart by kind only: a failed write, a malformed status count, or a stream that ended before a newline. Go's underlying `error` values are not modelled.
- A write either takes the whole command or fails without writing anything, and `writeFails` is fixed for the connection. Partial writes are not modelled.
- `strconv.ParseFloat` is the parameter `parseFloat`, and `fmt.Sprintf("%v", v)` is the parameter `render`. Floating point is not modelled.
- Go's map iteration order is not modelled. The options are visited in a caller-supplied `order` that lists every key once.
- `fmt.Fscanf(r, "%d ", &num)` is modelled by an assumption: an optional sign, a maximal run of at least one decimal digit that fits in int64, then exactly one space, which is consumed. On failure, the sign and digits already read are consumed. Go's scanner also skips leading blanks, lets the format's space match several blanks or the end of the input, and consumes one character past a bad token. None of this is modelled.
- `fmt.Sscanf(field, "%d.%d", &sec, &msec)` is modelled by the same integer scan: the seconds at the start, then the milliseconds right after a '.'. Blanks after the '.' are not skipped. A missing or unreadable second number gives msec = 0, as the code's `n == 1` branch does.
- Collectd.Conn.GetValue: requires every reply line to hold '='. Go panics only when the loop reaches a line without one; a value that fails to parse earlier returns first.
- Collectd.Conn.ListValues: requires every reply line to hold a space. Go panics only when the loop reaches a line without one after its timestamp parsed.
- Collectd.GatherLines: requires every line to hold the separator, for the same reason.
- `time.Time` is the pair `Time(sec, nsec)`. Locations, monotonic readings and the wall-clock encoding are not modelled. `PutValue` sends `t.Unix()`, the `sec` field.
- Go's `int` is taken to be 64 bits. The reply count is checked against the int64 range. A count too large for `make([]string, num)` to allocate is not modelled.
- Concurrency is not modelled. `Conn` has no locking, and the model has a single caller.
- Text is a sequence of characters. Bytes and UTF-8 decoding are not modelled.
- Framing.StatusCount: its contract states only the int64 range. What it reads is stated by `Framing.CountOf`, `Framing.NoLeadingInteger` and `Framing.CountWithoutSpace`.
- Commands.ParseTimestamp: its own contract states only when a time exists and that its nanoseconds lie within the second. The value for each shape of text (`<sec>.<digits>`, `<sec>.`, `<sec>`) is stated by the lemmas next to it.
