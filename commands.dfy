/** The text commands the client sends and the meaning it gives to reply
    lines. Every function here is the specification of one loop or one
    format string in the client; the daemon-side readers next to them
    (ParseKV, Split) are the partners the round-trip lemmas relate them to. */
module Commands {
  import opened Text
  import opened Framing

  // ---------------------------------------------------------------------
  // Quoting and key=value options.

  /** `"%s"`: the text between double quotes, with nothing escaped. */
  function Quoted(v: string): string {
    "\"" + v + "\""
  }

  /** `%s="%s"`: one option of a command. */
  function Assignment(key: string, value: string): string {
    key + "=" + Quoted(value)
  }

  /** `order` lists every key of `opts` exactly once: one of the orders in
      which a Go range over the map may visit it. */
  predicate IsEnumeration(order: seq<string>, opts: map<string, string>) {
    && (forall i, j :: 0 <= i < j < |order| ==> order[i] != order[j])
    && (forall k :: k in opts ==> k in order)
    && (forall i :: 0 <= i < |order| ==> order[i] in opts)
  }

  /** The options of `opts`, visited in `order`, as `k="v"` texts. */
  function KVParts(opts: map<string, string>, order: seq<string>): (parts: seq<string>)
    requires forall k :: k in order ==> k in opts
    ensures |parts| == |order|
    ensures forall i :: 0 <= i < |order| ==> parts[i] == Assignment(order[i], opts[order[i]])
    decreases |order|
  {
    if order == [] then []
    else [Assignment(order[0], opts[order[0]])] + KVParts(opts, order[1..])
  }

  /** What mapToKV returns when the map is visited in `order`. */
  function KVText(opts: map<string, string>, order: seq<string>): (r: string)
    requires forall k :: k in order ==> k in opts
    ensures r == [] <==> order == []
  {
    var parts := KVParts(opts, order);
    assert order != [] ==> |parts[0]| > 0 by {
      if order != [] {
        assert parts[0] == Assignment(order[0], opts[order[0]]);
      }
    }
    Join(parts, ' ')
  }

  /** The (key, value) pairs of `opts` in `order`. */
  function Pairs(opts: map<string, string>, order: seq<string>): (ps: seq<(string, string)>)
    requires forall k :: k in order ==> k in opts
    ensures |ps| == |order|
    decreases |order|
  {
    if order == [] then []
    else [(order[0], opts[order[0]])] + Pairs(opts, order[1..])
  }

  /** The map a list of pairs denotes. */
  function ToMap(ps: seq<(string, string)>): map<string, string>
    decreases |ps|
  {
    if ps == [] then map[] else ToMap(ps[1..])[ps[0].0 := ps[0].1]
  }

  /** How the daemon reads options back: `k="v"` items separated by single
      spaces, each key ending at its first '=' and each value at the next
      '"'. None for text that is not of that form. */
  function ParseKV(s: string): Option<seq<(string, string)>> {
    if s == [] then Some([]) else ParseAssignments(s)
  }

  function ParseAssignments(s: string): Option<seq<(string, string)>>
    decreases |s|
  {
    var k := Break(s, '=');
    if !k.found || k.tail == [] || k.tail[0] != '"' then None
    else
      var v := Break(k.tail[1..], '"');
      if !v.found then None
      else if v.tail == [] then Some([(k.head, v.head)])
      else if v.tail[0] != ' ' then None
      else
        match ParseAssignments(v.tail[1..])
        case None => None
        case Some(more) => Some([(k.head, v.head)] + more)
  }

  /** Options whose keys hold no '=' and whose values hold no '"': the
      only ones the daemon can read back, since nothing is escaped. */
  predicate Unambiguous(opts: map<string, string>) {
    forall k :: k in opts ==> '=' !in k && '"' !in opts[k]
  }

  /** An option heads the text: the daemon cuts its key at the '=' and its
      value at the closing '"'. */
  lemma AssignmentBreak(key: string, value: string, tail: string)
    requires '=' !in key && '"' !in value
    ensures Break(Assignment(key, value) + tail, '=') == Piece(key, true, Quoted(value) + tail)
    ensures Break((Quoted(value) + tail)[1..], '"') == Piece(value, true, tail)
  {
    Regroup(key + "=", Quoted(value), tail);
    Regroup(key, "=", Quoted(value) + tail);
    BreakAt(key, '=', Quoted(value) + tail);
    Regroup("\"" + value, "\"", tail);
    Regroup("\"", value, "\"" + tail);
    assert (Quoted(value) + tail)[1..] == value + "\"" + tail;
    BreakAt(value, '"', tail);
  }

  /** The daemon reads the options of mapToKV back, in the order they
      were written. */
  lemma {:induction false} ParseAssignmentsOf(opts: map<string, string>, order: seq<string>)
    requires |order| > 0 && (forall k :: k in order ==> k in opts) && Unambiguous(opts)
    ensures ParseAssignments(KVText(opts, order)) == Some(Pairs(opts, order))
    decreases |order|
  {
    var k, v := order[0], opts[order[0]];
    if |order| == 1 {
      AssignmentBreak(k, v, "");
      assert Assignment(k, v) + "" == Assignment(k, v);
      assert KVParts(opts, order) == [Assignment(k, v)];
      assert Pairs(opts, order) == [(k, v)];
    } else {
      ParseAssignmentsOf(opts, order[1..]);
      var more := KVText(opts, order[1..]);
      KVTextStep(opts, order);
      ReadOneMore(k, v, more);
    }
  }

  /** The options text is the first option, a space and the rest. */
  lemma KVTextStep(opts: map<string, string>, order: seq<string>)
    requires |order| > 1 && forall k :: k in order ==> k in opts
    ensures KVText(opts, order) == Assignment(order[0], opts[order[0]]) + " " + KVText(opts, order[1..])
  {
    var parts := KVParts(opts, order);
    assert parts[1..] == KVParts(opts, order[1..]);
  }

  /** The reader's step on a text that opens with one option and a space. */
  lemma ReadOneMore(k: string, v: string, more: string)
    requires '=' !in k && '"' !in v
    ensures ParseAssignments(more).None? ==> ParseAssignments(Assignment(k, v) + " " + more).None?
    ensures ParseAssignments(more).Some? ==>
              ParseAssignments(Assignment(k, v) + " " + more) == Some([(k, v)] + ParseAssignments(more).value)
  {
    Regroup(Assignment(k, v), " ", more);
    AssignmentBreak(k, v, " " + more);
    assert (" " + more)[1..] == more;
  }

  /** The reader goes on past options to whatever follows them. */
  lemma {:induction false} ParseAssignmentsThen(opts: map<string, string>, order: seq<string>,
                                                tail: string, more: seq<(string, string)>)
    requires |order| > 0 && (forall k :: k in order ==> k in opts) && Unambiguous(opts)
    requires ParseAssignments(tail) == Some(more)
    ensures ParseAssignments(KVText(opts, order) + " " + tail) == Some(Pairs(opts, order) + more)
    decreases |order|
  {
    var k, v := order[0], opts[order[0]];
    if |order| == 1 {
      assert KVParts(opts, order) == [Assignment(k, v)];
      assert Pairs(opts, order) == [(k, v)];
      ReadOneMore(k, v, tail);
    } else {
      ParseAssignmentsThen(opts, order[1..], tail, more);
      ThenText(opts, order, tail);
      ReadFront(k, v, KVText(opts, order[1..]) + " " + tail, Pairs(opts, order[1..]) + more);
      PairsFront(opts, order, more);
    }
  }

  /** One option read in front of a text the reader accepts. */
  lemma ReadFront(k: string, v: string, text: string, ps: seq<(string, string)>)
    requires '=' !in k && '"' !in v && ParseAssignments(text) == Some(ps)
    ensures ParseAssignments(Assignment(k, v) + " " + text) == Some([(k, v)] + ps)
  {
    ReadOneMore(k, v, text);
  }

  /** The pairs of options, then more pairs, as the first pair and the rest. */
  lemma PairsFront(opts: map<string, string>, order: seq<string>, more: seq<(string, string)>)
    requires |order| > 0 && forall k :: k in order ==> k in opts
    ensures Pairs(opts, order) + more == [(order[0], opts[order[0]])] + (Pairs(opts, order[1..]) + more)
  {
  }

  /** Options and what follows them, as the first option and the rest. */
  lemma ThenText(opts: map<string, string>, order: seq<string>, tail: string)
    requires |order| > 1 && forall k :: k in order ==> k in opts
    ensures KVText(opts, order) + " " + tail
            == Assignment(order[0], opts[order[0]]) + " " + (KVText(opts, order[1..]) + " " + tail)
  {
    KVTextStep(opts, order);
    SpaceRegroup(Assignment(order[0], opts[order[0]]), KVText(opts, order[1..]), tail);
  }

  /** Three texts joined by spaces, regrouped. */
  lemma SpaceRegroup(a: string, b: string, c: string)
    ensures a + " " + b + " " + c == a + " " + (b + " " + c)
  {
  }

  /** Reading back the options mapToKV wrote for any visiting order gives
      exactly the map. */
  lemma KVRoundTrip(opts: map<string, string>, order: seq<string>)
    requires IsEnumeration(order, opts) && Unambiguous(opts)
    ensures ParseKV(KVText(opts, order)) == Some(Pairs(opts, order))
    ensures ToMap(Pairs(opts, order)) == opts
  {
    if order != [] {
      ParseAssignmentsOf(opts, order);
    } else {
      assert opts.Keys == {};
    }
    PairsMap(opts, order);
    assert forall k :: k in opts <==> k in order;
  }

  /** The pairs of `order` denote `opts` restricted to the keys in `order`. */
  lemma {:induction false} PairsMap(opts: map<string, string>, order: seq<string>)
    requires forall k :: k in order ==> k in opts
    ensures ToMap(Pairs(opts, order)) == map k | k in order :: opts[k]
    decreases |order|
  {
    if order != [] {
      PairsMap(opts, order[1..]);
      assert Pairs(opts, order)[1..] == Pairs(opts, order[1..]);
      assert forall k :: k in order <==> k == order[0] || k in order[1..];
    }
  }

  /** Nothing is escaped: a value holding `" k="` writes the same text as
      two separate options, so the daemon cannot tell them apart. */
  lemma QuotesNotEscaped()
    ensures KVText(map["a" := "x\" b=\"y"], ["a"]) == KVText(map["a" := "x", "b" := "y"], ["a", "b"])
  {
    var one := map["a" := "x\" b=\"y"];
    var two := map["a" := "x", "b" := "y"];
    assert ["a"][1..] == [] && ["a", "b"][1..] == ["b"] && ["b"][1..] == [];
    assert KVParts(one, ["a"]) == [Assignment("a", "x\" b=\"y")];
    assert KVParts(two, ["a", "b"]) == [Assignment("a", "x"), Assignment("b", "y")];
    assert Assignment("a", "x\" b=\"y") == "a=\"x\" b=\"y\"";
    assert Join([Assignment("a", "x"), Assignment("b", "y")], ' ') == "a=\"x\" b=\"y\"";
  }

  // ---------------------------------------------------------------------
  // Commands.

  /** `GETVAL "<name>"`: the verb, a space, and the quoted identifier as
      the rest of the line. */
  function GetvalCommand(name: string): (r: string)
    ensures Break(r, ' ') == Piece("GETVAL", true, Quoted(name))
  {
    BreakAt("GETVAL", ' ', Quoted(name));
    assert "GETVAL" + [' '] + Quoted(name) == "GETVAL " + Quoted(name);
    "GETVAL " + Quoted(name)
  }

  /** A point in time as time.Unix builds it: whole seconds and
      nanoseconds within the second. */
  datatype Time = Time(sec: int, nsec: int)

  const NanosPerSecond: int := 1_000_000_000

  /** Go's `/`, which truncates toward zero: the quotient takes the sign
      of a, and its multiple of b lies between 0 and a, less than b away. */
  function Quot(a: int, b: int): (r: int)
    requires b > 0
    ensures a >= 0 ==> r >= 0 && r * b <= a < r * b + b
    ensures a < 0 ==> r <= 0 && r * b - b < a <= r * b
  {
    if a >= 0 then a / b else -((-a) / b)
  }

  /** time.Unix(sec, nsec): nsec outside [0, 1e9) is carried into the
      seconds with Go's truncating division and a final correction, in
      int64 arithmetic. */
  function UnixTime(sec: int, nsec: int): (t: Time)
    requires InInt64(sec) && InInt64(nsec)
    ensures InInt64(t.sec) && 0 <= t.nsec < NanosPerSecond
    ensures t.nsec == nsec % NanosPerSecond
    ensures t.sec == Wrap64(sec + nsec / NanosPerSecond)
  {
    if nsec < 0 || nsec >= NanosPerSecond then
      var n := Quot(nsec, NanosPerSecond);
      var s := Wrap64(sec + n);
      var ns := nsec - n * NanosPerSecond;
      if ns < 0 then Time(Wrap64(s - 1), ns + NanosPerSecond) else Time(s, ns)
    else Time(sec, nsec)
  }

  /** The timestamp field of PUTVAL: "N" (let the daemon pick the time)
      without a time, the Unix seconds otherwise. */
  function Stamp(t: Option<Time>): (r: string)
    ensures t.None? ==> r == "N"
    ensures t.Some? ==> ScanInt(r, 0) == IntScan(Some(t.value.sec), |r|)
  {
    match t
    case None => "N"
    case Some(time) =>
      var r := IntToString(time.sec);
      assert r[0..|r|] == r;
      ScanIntToString(time.sec, r, 0);
      r
  }

  /** The values rendered one by one, as the `%v` verb prints them. */
  function Rendered<V>(values: seq<V>, render: V -> string): (r: seq<string>)
    ensures |r| == |values|
    ensures forall i :: 0 <= i < |values| ==> r[i] == render(values[i])
    decreases |values|
  {
    if values == [] then [] else Rendered(values[..|values| - 1], render) + [render(values[|values| - 1])]
  }

  /** The value fields of PUTVAL, before they are joined with ':'. */
  function ValueFields<V>(t: Option<Time>, values: seq<V>, render: V -> string): (r: seq<string>)
    ensures |r| == |values| + 1 && r[0] == Stamp(t)
    ensures forall i :: 0 <= i < |values| ==> r[i + 1] == render(values[i])
  {
    [Stamp(t)] + Rendered(values, render)
  }

  /** `PUTVAL "<name>" <kv> <ts>:<v1>:...`: four words, whatever the
      options text holds. */
  function PutvalCommand(name: string, kv: string, fields: seq<string>): (r: string)
    ensures Break(r, ' ') == Piece("PUTVAL", true, Join([Quoted(name), kv, Join(fields, ':')], ' '))
  {
    var words := ["PUTVAL", Quoted(name), kv, Join(fields, ':')];
    assert words[1..] == [Quoted(name), kv, Join(fields, ':')];
    BreakAt("PUTVAL", ' ', Join(words[1..], ' '));
    Join(words, ' ')
  }

  /** `PUTNOTIF <kv> message="<message>"`. */
  function PutnotifCommand(kv: string, message: string): (r: string)
    ensures Break(r, ' ') == Piece("PUTNOTIF", true, Join([kv, Assignment("message", message)], ' '))
  {
    var words := ["PUTNOTIF", kv, Assignment("message", message)];
    assert words[1..] == [kv, Assignment("message", message)];
    BreakAt("PUTNOTIF", ' ', Join(words[1..], ' '));
    Join(words, ' ')
  }

  /** Without options PUTVAL has an empty word: two spaces after the name. */
  lemma PutvalNoOptions(name: string, fields: seq<string>)
    ensures PutvalCommand(name, "", fields) == "PUTVAL " + Quoted(name) + "  " + Join(fields, ':')
  {
    var q, v := Quoted(name), Join(fields, ':');
    var words := ["PUTVAL", q, "", v];
    assert words[1..] == [q, "", v];
    ThreeWords(q, "", v);
    EmptyWordText(q, v);
  }

  lemma ThreeWords(a: string, b: string, c: string)
    ensures Join([a, b, c], ' ') == a + " " + (b + " " + c)
  {
    assert [a, b, c][1..] == [b, c];
    TwoWords(b, c);
  }

  lemma EmptyWordText(q: string, v: string)
    ensures "PUTVAL" + [' '] + (q + " " + ("" + " " + v)) == "PUTVAL " + q + "  " + v
  {
  }

  /** Without options PUTNOTIF has an empty word: two spaces after the verb. */
  lemma PutnotifNoOptions(message: string)
    ensures PutnotifCommand("", message) == "PUTNOTIF  " + Assignment("message", message)
  {
    var m := Assignment("message", message);
    var words := ["PUTNOTIF", "", m];
    assert words[1..] == ["", m] && words[1..][1..] == [m];
    assert Join(words[1..], ' ') == " " + m;
  }

  /** `key="v"` for each v, in order. */
  function Assignments(key: string, vs: seq<string>): (r: seq<string>)
    ensures |r| == |vs|
    ensures forall i :: 0 <= i < |vs| ==> r[i] == Assignment(key, vs[i])
    decreases |vs|
  {
    if vs == [] then [] else Assignments(key, vs[..|vs| - 1]) + [Assignment(key, vs[|vs| - 1])]
  }

  /** The words of FLUSH: the verb, the timeout, then one option per
      plugin and one per identifier. */
  function FlushParts(timeout: int, plugins: seq<string>, identifiers: seq<string>): (parts: seq<string>)
    ensures |parts| == 2 + |plugins| + |identifiers|
    ensures parts[0] == "FLUSH" && parts[1] == "timeout=" + IntToString(timeout)
  {
    ["FLUSH", "timeout=" + IntToString(timeout)] + Assignments("plugin", plugins) + Assignments("identifier", identifiers)
  }

  /** FLUSH's words come in the documented order: after the verb and the
      timeout, the plugin options in order (`Assignments` gives one per
      plugin), then the identifier options in order; empty lists add
      nothing. */
  lemma FlushLayout(timeout: int, plugins: seq<string>, identifiers: seq<string>)
    ensures FlushParts(timeout, plugins, identifiers)[2..2 + |plugins|] == Assignments("plugin", plugins)
    ensures FlushParts(timeout, plugins, identifiers)[2 + |plugins|..] == Assignments("identifier", identifiers)
  {
    var head := ["FLUSH", "timeout=" + IntToString(timeout)];
    var ps := Assignments("plugin", plugins);
    var ids := Assignments("identifier", identifiers);
    assert (head + ps + ids)[2..2 + |ps|] == ps;
    assert (head + ps + ids)[2 + |ps|..] == ids;
  }

  /** FLUSH: the verb, a space, and the remaining words joined by spaces. */
  function FlushCommand(timeout: int, plugins: seq<string>, identifiers: seq<string>): (r: string)
    ensures Break(r, ' ') == Piece("FLUSH", true, Join(FlushParts(timeout, plugins, identifiers)[1..], ' '))
  {
    var parts := FlushParts(timeout, plugins, identifiers);
    BreakAt("FLUSH", ' ', Join(parts[1..], ' '));
    Join(parts, ' ')
  }

  /** strconv.Itoa prints only a sign and digits. */
  lemma IntCharacters(i: int, c: char)
    requires c != '-' && !IsDigit(c)
    ensures c !in IntToString(i)
  {
    var s := IntToString(i);
    if i >= 0 {
      assert forall k :: 0 <= k < |s| ==> IsDigit(s[k]);
    } else {
      assert forall k :: 1 <= k < |s| ==> s[k] == s[1..][k - 1] && IsDigit(s[1..][k - 1]);
    }
  }

  /** `key="v"` holds no c when neither the key nor v does and c is not
      one of '=' and '"'. */
  lemma AssignmentsAvoid(key: string, vs: seq<string>, c: char)
    requires c != '=' && c != '"' && c !in key
    requires forall i :: 0 <= i < |vs| ==> c !in vs[i]
    ensures forall i :: 0 <= i < |vs| ==> c !in Assignments(key, vs)[i]
  {
  }

  /** The daemon splits FLUSH at spaces back into its words when no plugin
      or identifier holds a space. */
  lemma FlushSplit(timeout: int, plugins: seq<string>, identifiers: seq<string>)
    requires forall i :: 0 <= i < |plugins| ==> ' ' !in plugins[i]
    requires forall i :: 0 <= i < |identifiers| ==> ' ' !in identifiers[i]
    ensures Split(FlushCommand(timeout, plugins, identifiers), ' ') == FlushParts(timeout, plugins, identifiers)
  {
    var head := ["FLUSH", "timeout=" + IntToString(timeout)];
    var ps := Assignments("plugin", plugins);
    var ids := Assignments("identifier", identifiers);
    IntCharacters(timeout, ' ');
    AssignmentsAvoid("plugin", plugins, ' ');
    AssignmentsAvoid("identifier", identifiers, ' ');
    NoneHolds(head, ps, ids, ' ');
    SplitJoin(head + ps + ids, ' ');
  }

  /** No string of three sequences holds c when none of each does. */
  lemma NoneHolds(a: seq<string>, b: seq<string>, c: seq<string>, x: char)
    requires forall i :: 0 <= i < |a| ==> x !in a[i]
    requires forall i :: 0 <= i < |b| ==> x !in b[i]
    requires forall i :: 0 <= i < |c| ==> x !in c[i]
    ensures forall i :: 0 <= i < |a + b + c| ==> x !in (a + b + c)[i]
  {
  }

  /** The daemon splits the value field of PUTVAL at ':' back into the
      timestamp and the rendered values, when no rendered value holds a
      ':'. */
  lemma ValueFieldsSplit<V>(t: Option<Time>, values: seq<V>, render: V -> string)
    requires forall i :: 0 <= i < |values| ==> ':' !in render(values[i])
    ensures Split(Join(ValueFields(t, values, render), ':'), ':') == ValueFields(t, values, render)
    ensures ValueFields(t, values, render)[0] == (if t.None? then "N" else IntToString(t.value.sec))
  {
    if t.Some? {
      IntCharacters(t.value.sec, ':');
    }
    SplitJoin(ValueFields(t, values, render), ':');
  }

  /** Concrete wire texts. */
  lemma FlushExample()
    ensures FlushCommand(-1, [], ["a"]) == "FLUSH timeout=-1 identifier=\"a\""
  {
    FlushExampleParts();
    FlushExampleJoin();
  }

  lemma FlushExampleJoin()
    ensures Join(["FLUSH", "timeout=-1", "identifier=\"a\""], ' ') == "FLUSH timeout=-1 identifier=\"a\""
  {
    ThreeWords("FLUSH", "timeout=-1", "identifier=\"a\"");
  }

  lemma FlushExampleParts()
    ensures FlushParts(-1, [], ["a"]) == ["FLUSH", "timeout=-1", "identifier=\"a\""]
  {
    assert "timeout=" + IntToString(-1) == "timeout=-1";
    assert Assignments("plugin", []) == [];
    assert ["a"][..0] == [];
    assert Assignments("identifier", ["a"]) == [Assignment("identifier", "a")];
    assert Assignment("identifier", "a") == "identifier=\"a\"";
  }

  lemma TwoWords(a: string, b: string)
    ensures Join([a, b], ' ') == a + " " + b
  {
    assert [a, b][1..] == [b];
  }

  /** The daemon splits PUTVAL at spaces into the verb, the quoted name,
      one word per option and the value field, when no name, key, option
      value or field holds a space. */
  lemma PutvalWords(name: string, opts: map<string, string>, order: seq<string>, fields: seq<string>)
    requires |order| > 0 && forall k :: k in order ==> k in opts
    requires ' ' !in name
    requires forall k :: k in opts ==> ' ' !in k && ' ' !in opts[k]
    requires forall i :: 0 <= i < |fields| ==> ' ' !in fields[i]
    ensures Split(PutvalCommand(name, KVText(opts, order), fields), ' ')
            == ["PUTVAL", Quoted(name)] + KVParts(opts, order) + [Join(fields, ':')]
  {
    var verb := ["PUTVAL", Quoted(name)];
    var parts := KVParts(opts, order);
    var kv := KVText(opts, order);
    var last := Join(fields, ':');
    JoinAppend(verb + parts, [last], ' ');
    JoinAppend(verb, parts, ' ');
    JoinAppend(verb + [kv], [last], ' ');
    JoinAppend(verb, [kv], ' ');
    assert verb + [kv] + [last] == ["PUTVAL", Quoted(name), kv, last];
    JoinAvoids(fields, ':', ' ');
    forall i | 0 <= i < |parts|
      ensures ' ' !in parts[i]
    {
      assert parts[i] == order[i] + "=" + Quoted(opts[order[i]]);
    }
    NoneHolds(verb, parts, [last], ' ');
    SplitJoin(verb + parts + [last], ' ');
  }

  /** PUTNOTIF is the verb, the options and the message as one more
      option; the daemon reads the options and the message back when none
      is ambiguous and there is at least one option. */
  lemma PutnotifRoundTrip(opts: map<string, string>, order: seq<string>, message: string)
    requires IsEnumeration(order, opts) && Unambiguous(opts) && '"' !in message
    requires order != []
    ensures var body := KVText(opts, order) + " " + Assignment("message", message);
            && PutnotifCommand(KVText(opts, order), message) == "PUTNOTIF " + body
            && ParseKV(body) == Some(Pairs(opts, order) + [("message", message)])
  {
    var kv := KVText(opts, order);
    var note := Assignment("message", message);
    PutnotifText(kv, note, message);
    MessageRead(message);
    ParseAssignmentsThen(opts, order, note, [("message", message)]);
  }

  lemma PutnotifText(kv: string, note: string, message: string)
    requires note == Assignment("message", message)
    ensures PutnotifCommand(kv, message) == "PUTNOTIF " + (kv + " " + note)
  {
    assert ["PUTNOTIF", kv, note][1..] == [kv, note];
    TwoWords(kv, note);
    assert Join(["PUTNOTIF", kv, note], ' ') == "PUTNOTIF" + " " + (kv + " " + note);
    assert "PUTNOTIF" + " " == "PUTNOTIF ";
  }

  /** The message option alone is read back. */
  lemma MessageRead(message: string)
    requires '"' !in message
    ensures ParseAssignments(Assignment("message", message)) == Some([("message", message)])
  {
    AssignmentBreak("message", message, "");
    assert Assignment("message", message) + "" == Assignment("message", message);
  }

  // ---------------------------------------------------------------------
  // Reply lines.

  /** The key and the text to parse in a reply line split at its first
      `sep`: GETVAL's `name=value` keeps the key on the left, LISTVAL's
      `time identifier` on the right. */
  function Key(line: string, sep: char, keyLeft: bool): string {
    var p := Break(line, sep);
    if keyLeft then p.head else p.tail
  }

  function Field(line: string, sep: char, keyLeft: bool): string {
    var p := Break(line, sep);
    if keyLeft then p.tail else p.head
  }

  /** A line with the separator is its key and its field on either side of
      the first separator, the left one free of the separator; a line
      without it is all key (GETVAL) or all field (LISTVAL). */
  lemma KeyField(line: string, sep: char, keyLeft: bool)
    ensures sep in line && keyLeft ==>
              line == Key(line, sep, keyLeft) + [sep] + Field(line, sep, keyLeft) && sep !in Key(line, sep, keyLeft)
    ensures sep in line && !keyLeft ==>
              line == Field(line, sep, keyLeft) + [sep] + Key(line, sep, keyLeft) && sep !in Field(line, sep, keyLeft)
    ensures sep !in line ==> Key(line, sep, keyLeft) == (if keyLeft then line else [])
    ensures sep !in line ==> Field(line, sep, keyLeft) == (if keyLeft then [] else line)
  {
    BreakFirst(line, sep);
  }

  /** The entries gathered from reply lines so far, and the text of the
      first field that did not parse. */
  datatype Collected<V> = Collected(entries: map<string, V>, bad: Option<string>)

  /** The loop over reply lines: each line's field is parsed and stored
      under its key, a later line overwriting an earlier one; the first
      field that does not parse stops the loop. */
  function Gather<V>(lines: seq<string>, sep: char, keyLeft: bool, parse: string -> Option<V>): (c: Collected<V>)
    ensures c.bad.Some? ==> parse(c.bad.value).None?
    decreases |lines|
  {
    if lines == [] then Collected(map[], None)
    else
      var c := Gather(lines[..|lines| - 1], sep, keyLeft, parse);
      var line := lines[|lines| - 1];
      if c.bad.Some? then c
      else match parse(Field(line, sep, keyLeft))
        case None => Collected(c.entries, Some(Field(line, sep, keyLeft)))
        case Some(v) => Collected(c.entries[Key(line, sep, keyLeft) := v], None)
  }

  /** Every field of `lines` parses. */
  predicate AllParse<V>(lines: seq<string>, sep: char, keyLeft: bool, parse: string -> Option<V>) {
    forall i :: 0 <= i < |lines| ==> parse(Field(lines[i], sep, keyLeft)).Some?
  }

  /** The line at index i is the last one with its key. */
  predicate LastWithKey(lines: seq<string>, sep: char, keyLeft: bool, i: int)
    requires 0 <= i < |lines|
  {
    forall j :: i < j < |lines| ==> Key(lines[j], sep, keyLeft) != Key(lines[i], sep, keyLeft)
  }

  /** The loop ends without error exactly when every field parses. */
  lemma {:induction false} GatherOk<V>(lines: seq<string>, sep: char, keyLeft: bool, parse: string -> Option<V>)
    ensures Gather(lines, sep, keyLeft, parse).bad.None? <==> AllParse(lines, sep, keyLeft, parse)
    decreases |lines|
  {
    if lines != [] {
      var init := lines[..|lines| - 1];
      GatherOk(init, sep, keyLeft, parse);
      assert forall i :: 0 <= i < |init| ==> init[i] == lines[i];
      if !AllParse(init, sep, keyLeft, parse) {
        var i :| 0 <= i < |init| && parse(Field(init[i], sep, keyLeft)).None?;
        assert lines[i] == init[i];
      }
    }
  }

  /** When every field parses, the keys of the map are those of the lines. */
  lemma {:induction false} GatherKeys<V>(lines: seq<string>, sep: char, keyLeft: bool, parse: string -> Option<V>)
    requires AllParse(lines, sep, keyLeft, parse)
    ensures Gather(lines, sep, keyLeft, parse).entries.Keys == (set i | 0 <= i < |lines| :: Key(lines[i], sep, keyLeft))
    decreases |lines|
  {
    if lines != [] {
      var n := |lines| - 1;
      var init := lines[..n];
      assert forall i :: 0 <= i < n ==> init[i] == lines[i];
      GatherKeys(init, sep, keyLeft, parse);
      GatherOk(init, sep, keyLeft, parse);
      KeysStep(lines, sep, keyLeft);
    }
  }

  /** The keys of nonempty lines: those of all but the last, and the last's. */
  lemma KeysStep(lines: seq<string>, sep: char, keyLeft: bool)
    requires |lines| > 0
    ensures var n := |lines| - 1;
            (set i | 0 <= i < |lines| :: Key(lines[i], sep, keyLeft))
            == (set i | 0 <= i < n :: Key(lines[..n][i], sep, keyLeft)) + {Key(lines[n], sep, keyLeft)}
  {
    var n := |lines| - 1;
    assert forall i :: 0 <= i < n ==> lines[..n][i] == lines[i];
  }

  /** When every field parses, each key holds the value of the last line
      that has it: a later duplicate overwrites an earlier one. */
  lemma {:induction false} GatherLast<V>(lines: seq<string>, sep: char, keyLeft: bool, parse: string -> Option<V>, i: nat)
    requires AllParse(lines, sep, keyLeft, parse)
    requires i < |lines| && LastWithKey(lines, sep, keyLeft, i)
    ensures var k := Key(lines[i], sep, keyLeft);
            var c := Gather(lines, sep, keyLeft, parse);
            k in c.entries && c.entries[k] == parse(Field(lines[i], sep, keyLeft)).value
    decreases |lines|
  {
    var n := |lines| - 1;
    var init := lines[..n];
    InitParses(lines, sep, keyLeft, parse);
    GatherOk(init, sep, keyLeft, parse);
    if i < n {
      assert init[i] == lines[i];
      assert LastWithKey(init, sep, keyLeft, i) by {
        assert forall j :: i < j < n ==> init[j] == lines[j];
      }
      GatherLast(init, sep, keyLeft, parse, i);
    }
  }

  /** All but the last of lines that all parse parse too. */
  lemma InitParses<V>(lines: seq<string>, sep: char, keyLeft: bool, parse: string -> Option<V>)
    requires |lines| > 0 && AllParse(lines, sep, keyLeft, parse)
    ensures AllParse(lines[..|lines| - 1], sep, keyLeft, parse)
  {
    var init := lines[..|lines| - 1];
    assert forall j :: 0 <= j < |init| ==> init[j] == lines[j];
  }

  /** When the field of line j is the first that does not parse, the loop
      reports that field and keeps what the lines before j gave. */
  lemma {:induction false} GatherStops<V>(lines: seq<string>, sep: char, keyLeft: bool, parse: string -> Option<V>, j: nat)
    requires j < |lines| && AllParse(lines[..j], sep, keyLeft, parse)
    requires parse(Field(lines[j], sep, keyLeft)).None?
    ensures Gather(lines, sep, keyLeft, parse)
            == Collected(Gather(lines[..j], sep, keyLeft, parse).entries, Some(Field(lines[j], sep, keyLeft)))
    decreases |lines|
  {
    var n := |lines| - 1;
    if j == n {
      GatherOk(lines[..j], sep, keyLeft, parse);
    } else {
      assert lines[..n][..j] == lines[..j];
      assert lines[..n][j] == lines[j];
      GatherStops(lines[..n], sep, keyLeft, parse, j);
    }
  }

  /** What GetValue returns for a reply: a nil map and the error of a
      failed exchange; otherwise the map built from the lines, and an
      Error naming the first value the float parser rejected, with the
      entries before it. */
  function ValuesOf<F>(r: Reply, parseFloat: string -> Option<F>): (res: (Option<map<string, F>>, Option<Failure>))
    requires r.err.None? ==> r.lines.Some?
    ensures r.err.Some? ==> res == (None, r.err)
    ensures res.1.None? <==> r.err.None? && AllParse(r.lines.value, '=', true, parseFloat)
    ensures r.err.None? ==> res.0.Some?
    ensures r.err.None? && r.lines.value == [] ==> res == (Some(map[]), None)
    ensures res.1.Some? && r.err.None? ==> res.1.value.Error? && res.1.value.reason.BadValue?
  {
    if r.err.Some? then (None, r.err)
    else
      var c := Gather(r.lines.value, '=', true, parseFloat);
      GatherOk(r.lines.value, '=', true, parseFloat);
      match c.bad
      case None => (Some(c.entries), None)
      case Some(text) => (Some(c.entries), Some(Error(BadValue(text))))
  }

  /** What Sscanf(field, "%d.%d", &sec, &msec) and the fallback leave, as
      a time: None when no leading integer parses; the fraction read as a
      count of milliseconds when a '.' and an integer follow, else 0. */
  function ParseTimestamp(text: string): (t: Option<Time>)
    ensures t.Some? <==> ScanInt64(text, 0).value.Some?
    ensures t.Some? ==> 0 <= t.value.nsec < NanosPerSecond
  {
    var a := ScanInt64(text, 0);
    if a.value.None? then None
    else
      var msec := if a.next < |text| && text[a.next] == '.' then ScanInt64(text, a.next + 1).value.GetOr(0) else 0;
      Some(UnixTime(a.value.value, Wrap64(msec * 1_000_000)))
  }

  /** Three digits of milliseconds, as collectd prints them with "%.3f". */
  function Millis(ms: nat): (s: string)
    requires ms < 1000
    ensures |s| == 3 && AllDigits(s) && DigitsValue(s) == ms
  {
    var a, b, c := ms / 100, ms / 10 % 10, ms % 10;
    var s := [DigitChar(a), DigitChar(b), DigitChar(c)];
    ThreeDigits(s);
    MillisDigits(ms);
    s
  }

  /** The value of three digits. */
  lemma ThreeDigits(s: string)
    requires |s| == 3 && AllDigits(s)
    ensures DigitsValue(s) == ((s[0] as int - '0' as int) * 10 + (s[1] as int - '0' as int)) * 10
                              + (s[2] as int - '0' as int)
  {
    assert s[..1][..0] == [] && s[..1][0] == s[0];
    assert DigitsValue(s[..1]) == s[0] as int - '0' as int;
    assert s[..2][..1] == s[..1] && s[..2][1] == s[1];
    assert DigitsValue(s[..2]) == DigitsValue(s[..1]) * 10 + (s[1] as int - '0' as int);
    assert s[..2] == s[..|s| - 1];
  }

  /** A number below 1000 from its hundreds, tens and units. */
  lemma MillisDigits(ms: nat)
    requires ms < 1000
    ensures (ms / 100 * 10 + ms / 10 % 10) * 10 + ms % 10 == ms
  {
  }

  /** A LISTVAL time `<sec>.<mmm>` is read as sec seconds and mmm
      milliseconds. */
  lemma TimestampOf(sec: int, ms: nat)
    requires InInt64(sec) && ms < 1000
    ensures ParseTimestamp(IntToString(sec) + "." + Millis(ms)) == Some(Time(sec, ms * 1_000_000))
  {
    var s := IntToString(sec) + "." + Millis(ms);
    SecondsOf(sec, Millis(ms));
    MillisOf(s, |IntToString(sec)| + 1, ms);
  }

  /** The seconds of `<sec>.<rest>` are read up to the '.'. */
  lemma SecondsOf(sec: int, rest: string)
    requires InInt64(sec)
    ensures var s := IntToString(sec) + "." + rest;
            ScanInt64(s, 0) == IntScan(Some(sec), |IntToString(sec)|) && s[|IntToString(sec)|] == '.'
  {
    var t := IntToString(sec);
    var s := t + "." + rest;
    assert s[0..|t|] == t;
    assert s[|t|] == '.';
    ScanIntToString(sec, s, 0);
  }

  /** Three digits of milliseconds that end the text are read as ms. */
  lemma MillisOf(s: string, at: nat, ms: nat)
    requires ms < 1000 && at <= |s| && s[at..] == Millis(ms)
    ensures ScanInt64(s, at) == IntScan(Some(ms), |s|)
  {
    assert s[at..|s|] == s[at..];
    DigitRunEndAt(s, at, |s|);
  }

  /** A time with no fraction is read as whole seconds. */
  lemma TimestampWhole(sec: int, rest: string)
    requires InInt64(sec)
    requires rest == [] || (!IsDigit(rest[0]) && rest[0] != '.')
    ensures ParseTimestamp(IntToString(sec) + rest) == Some(Time(sec, 0))
  {
    var t := IntToString(sec);
    var s := t + rest;
    assert s[0..|t|] == t;
    ScanIntToString(sec, s, 0);
  }

  /** `<sec>.<digits>`, whatever follows the digits, is read as sec
      seconds plus the digits' value in milliseconds, carried into the
      seconds by time.Unix and wrapped to int64 like Go's `msec*1e6`. */
  lemma TimestampFraction(sec: int, d: string, rest: string)
    requires InInt64(sec) && |d| > 0 && AllDigits(d) && DigitsValue(d) <= MaxInt64
    requires rest == [] || !IsDigit(rest[0])
    ensures ParseTimestamp(IntToString(sec) + "." + d + rest)
            == Some(UnixTime(sec, Wrap64(DigitsValue(d) * 1_000_000)))
  {
    var t := IntToString(sec);
    assert t + "." + d + rest == t + "." + (d + rest);
    SecondsOf(sec, d + rest);
    FractionScan(t, d, rest);
  }

  /** The digits after the '.' are scanned as their value. */
  lemma FractionScan(t: string, d: string, rest: string)
    requires |d| > 0 && AllDigits(d) && DigitsValue(d) <= MaxInt64
    requires rest == [] || !IsDigit(rest[0])
    ensures ScanInt64(t + "." + d + rest, |t| + 1) == IntScan(Some(DigitsValue(d)), |t| + 1 + |d|)
  {
    var s := t + "." + d + rest;
    assert s[|t| + 1..|t| + 1 + |d|] == d;
    assert |t| + 1 + |d| < |s| ==> s[|t| + 1 + |d|] == rest[0];
    DigitsScan(s, |t| + 1, d);
  }

  /** `<sec>.` followed by neither a sign nor a digit has no fraction:
      the code's fallback gives msec = 0. */
  lemma TimestampNoFraction(sec: int, rest: string)
    requires InInt64(sec)
    requires rest == [] || (!IsDigit(rest[0]) && rest[0] != '+' && rest[0] != '-')
    ensures ParseTimestamp(IntToString(sec) + "." + rest) == Some(Time(sec, 0))
  {
    var t := IntToString(sec);
    var s := t + "." + rest;
    SecondsOf(sec, rest);
    assert |t| + 1 < |s| ==> s[|t| + 1] == rest[0];
  }

  /** A fraction of a thousand milliseconds or more carries into the
      seconds. */
  lemma FractionCarries()
    ensures ParseTimestamp("5.1500") == Some(Time(6, 500_000_000))
  {
    var d := "1500";
    assert "1"[..0] == [] && DigitsValue("1") == 1;
    assert "15"[..1] == "1" && DigitsValue("15") == 15;
    assert "150"[..2] == "15" && DigitsValue("150") == 150;
    assert d[..3] == "150" && DigitsValue(d) == 1500;
    TimestampFraction(5, d, "");
    assert IntToString(5) + "." + d + "" == "5.1500";
    assert Wrap64(1500 * 1_000_000) == 1_500_000_000;
    assert UnixTime(5, 1_500_000_000) == Time(6, 500_000_000);
  }

  /** A bare '.' after the seconds is whole seconds. */
  lemma BareDot()
    ensures ParseTimestamp("5.") == Some(Time(5, 0))
  {
    TimestampNoFraction(5, "");
    assert IntToString(5) + "." + "" == "5.";
  }

  /** A time that opens with neither a sign nor a digit is rejected. */
  lemma TimestampRejected(text: string)
    requires text == [] || (!IsDigit(text[0]) && text[0] != '+' && text[0] != '-')
    ensures ParseTimestamp(text) == None
  {
  }

  /** The fraction is a count of milliseconds, not a decimal fraction:
      "1.500", as collectd prints it, is one and a half seconds, while
      "1.5" is one second and five milliseconds. */
  lemma FractionIsMillis()
    ensures ParseTimestamp("1.500") == Some(Time(1, 500_000_000))
    ensures ParseTimestamp("1.5") == Some(Time(1, 5_000_000))
  {
    ThreeDigitFraction();
    OneDigitFraction();
  }

  lemma ThreeDigitFraction()
    ensures ParseTimestamp("1.500") == Some(Time(1, 500_000_000))
  {
    TimestampOf(1, 500);
    assert IntToString(1) + "." + Millis(500) == "1.500";
  }

  lemma OneDigitFraction()
    ensures ParseTimestamp("1.5") == Some(Time(1, 5_000_000))
  {
    var s := "1.5";
    assert s[0..1] == "1" && s[2..3] == "5";
    DigitRunEndAt(s, 0, 1);
    DigitRunEndAt(s, 2, 3);
    assert DigitsValue("1") == 1 && DigitsValue("5") == 5;
    assert ScanInt64(s, 0) == IntScan(Some(1), 1);
    assert ScanInt64(s, 2) == IntScan(Some(5), 3);
  }

  /** A one-line LISTVAL reply `<sec>.<mmm> <identifier>` maps the
      identifier to that time. */
  lemma ListvalLine(sec: int, ms: nat, id: string, rest: string)
    requires InInt64(sec) && ms < 1000
    ensures var line := IntToString(sec) + "." + Millis(ms) + " " + id;
            TimesOf(Reply(Some([line]), None, rest)) == (Some(map[id := Time(sec, ms * 1_000_000)]), None)
  {
    var stamp := IntToString(sec) + "." + Millis(ms);
    StampWord(sec, ms);
    BreakAt(stamp, ' ', id);
    TimestampOf(sec, ms);
    OneLine(stamp + " " + id, ' ', false, ParseTimestamp);
  }

  /** A printed time holds no space. */
  lemma StampWord(sec: int, ms: nat)
    requires ms < 1000
    ensures ' ' !in IntToString(sec) + "." + Millis(ms)
  {
    IntCharacters(sec, ' ');
    var m := Millis(ms);
    assert forall i :: 0 <= i < |m| ==> IsDigit(m[i]);
  }

  /** The loop over a single line. */
  lemma OneLine<V>(line: string, sep: char, keyLeft: bool, parse: string -> Option<V>)
    ensures Gather([line], sep, keyLeft, parse)
            == match parse(Field(line, sep, keyLeft))
               case None => Collected(map[], Some(Field(line, sep, keyLeft)))
               case Some(v) => Collected(map[Key(line, sep, keyLeft) := v], None)
  {
    assert [line][..0] == [];
  }

  /** What ListValues returns for a reply: a nil map and the error of a
      failed exchange; a nil map and an Error naming the first time that
      has no leading integer; otherwise the map from identifier to time. */
  function TimesOf(r: Reply): (res: (Option<map<string, Time>>, Option<Failure>))
    requires r.err.None? ==> r.lines.Some?
    ensures r.err.Some? ==> res == (None, r.err)
    ensures res.0.Some? <==> r.err.None? && AllParse(r.lines.value, ' ', false, ParseTimestamp)
    ensures res.1.None? <==> res.0.Some?
    ensures res.1.Some? && r.err.None? ==> res.1.value.Error? && res.1.value.reason.BadTimestamp?
  {
    if r.err.Some? then (None, r.err)
    else
      var c := Gather(r.lines.value, ' ', false, ParseTimestamp);
      GatherOk(r.lines.value, ' ', false, ParseTimestamp);
      match c.bad
      case None => (Some(c.entries), None)
      case Some(text) => (None, Some(Error(BadTimestamp(text))))
  }
}
