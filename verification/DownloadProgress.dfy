/**
 Downloads get done: with a working disk, a server that sends what was promised, whole, from where the
 partial file ends, or after a refused range from the start, the bundle is published.
 */
module DownloadProgress {
  import opened Bytes
  import opened Wrappers
  import opened Decimal
  import opened Range
  import opened Download
  import opened Downloader

  // ---------------------------------------------------------------- what a server sends

  predicate Text(text: string) {
    '\0' !in text
  }

  predicate StatusText(text: string, code: nat) {
    Text(text) && HasPrefix(Chomp(text), "HTTP/") && StatusOf(Chomp(text)) == Some(code)
  }

  /** A field that says nothing about the content. */
  predicate PlainText(text: string) {
    var line := Chomp(text);
    var colon := IndexOf(line, ':');
    && Text(text) && line != "" && !HasPrefix(line, "HTTP/") && colon < |line|
    && Lower(line[..colon]) != "content-range" && Lower(line[..colon]) != "content-length" && Lower(line[..colon]) != "content-encoding"
  }

  predicate RangeField(text: string, value: string) {
    var line := Chomp(text);
    var colon := IndexOf(line, ':');
    && Text(text) && line != "" && !HasPrefix(line, "HTTP/") && colon < |line|
    && Lower(line[..colon]) == "content-range" && Strip(line[colon + 1..]) == value && |value| < 128
  }

  predicate EndText(text: string) {
    Text(text) && Chomp(text) == ""
  }

  function Total(texts: seq<string>): nat {
    if texts == [] then 0 else |texts[0]| + Total(texts[1..])
  }

  /** Header lines, on a disk that works. */
  function Lines(texts: seq<string>): seq<Callback> {
    if texts == [] then [] else [Header(texts[0], Done, true)] + Lines(texts[1..])
  }

  /** Body pieces, each taken whole by the disk. */
  function Pieces(parts: seq<seq<byte>>): seq<Callback> {
    if parts == [] then [] else [Body(parts[0], |parts[0]|)] + Pieces(parts[1..])
  }

  function Whole(parts: seq<seq<byte>>): seq<byte> {
    if parts == [] then [] else parts[0] + Whole(parts[1..])
  }

  // ---------------------------------------------------------------- callbacks one after the other

  lemma {:induction false} PerformedJoin(t: Transfer, a: seq<Callback>, b: seq<Callback>)
    requires Performed(t, a).1
    ensures Performed(t, a + b) == Performed(Performed(t, a).0, b)
    decreases |a|
  {
    hide AfterCallback;
    if a == [] {
      assert a + b == b;
    } else {
      assert (a + b)[1..] == a[1..] + b;
      PerformedJoin(AfterCallback(t, a[0]).0, a[1..], b);
    }
  }

  lemma PerformedOne(t: Transfer, c: Callback)
    ensures AfterCallback(t, c).1 ==> Performed(t, [c]) == AfterCallback(t, c)
  {
    hide AfterCallback;
    assert [c][1..] == [];
    assert Performed(AfterCallback(t, c).0, []) == (AfterCallback(t, c).0, true);
  }

  function Counted(t: Transfer, n: nat): Transfer {
    t.(head := t.head.(bytes := t.head.bytes + n))
  }

  lemma {:induction false} PlainLines(t: Transfer, texts: seq<string>)
    requires !t.headersDone && t.head.bytes + Total(texts) <= 65536 && forall x <- texts :: PlainText(x)
    ensures Performed(t, Lines(texts)) == (Counted(t, Total(texts)), true)
    decreases |texts|
  {
    if texts != [] {
      hide Chomp, Strip, Lower, IndexOf, HasPrefix, Decided, StatusLine;
      var x := texts[0];
      assert PlainText(x);
      assert AfterCallback(t, Header(x, Done, true)) == (Counted(t, |x|), true);
      PlainLines(Counted(t, |x|), texts[1..]);
      assert Lines(texts)[1..] == Lines(texts[1..]);
    }
  }

  lemma {:induction false} PiecesFill(t: Transfer, parts: seq<seq<byte>>)
    requires Writing(t) && t.pos == |t.file| && t.received + |Whole(parts)| <= t.limit
    ensures var w := Whole(parts);
      Performed(t, Pieces(parts)) == (t.(file := t.file + w, pos := t.pos + |w|, received := t.received + |w|), true)
    decreases |parts|
  {
    if parts == [] {
      assert t.file + [] == t.file;
    } else {
      var d, rest := parts[0], Whole(parts[1..]);
      assert Whole(parts) == d + rest;
      var u := t.(file := t.file + d, pos := t.pos + |d|, received := t.received + |d|);
      assert d[..|d|] == d && t.file[..t.pos] == t.file;
      assert WrittenAt(t.file, t.pos, d) == t.file + d;
      assert AfterCallback(t, Body(d, |d|)) == (u, true);
      assert Pieces(parts)[1..] == Pieces(parts[1..]);
      PiecesFill(u, parts[1..]);
      assert (t.file + d) + rest == t.file + (d + rest);
    }
  }

  // ---------------------------------------------------------------- one response

  /** Status line, fields, the empty line. */
  function Opening(status: string, fields: seq<string>, end: string): seq<Callback> {
    [Header(status, Done, true)] + Lines(fields) + [Header(end, Done, true)]
  }

  /** After the status line. */
  function Statused(t: Transfer, status: string, code: nat): Transfer {
    t.(head := Head(code, t.head.bytes + |status|, false, false, false, t.head.length, ""))
  }

  lemma StatusRead(t: Transfer, status: string, code: nat)
    requires !t.headersDone && t.head.bytes + |status| <= 65536 && StatusText(status, code)
    ensures AfterCallback(t, Header(status, Done, true)) == (Statused(t, status, code), true)
  {
    hide Chomp, StatusOf, HasPrefix, Decided, Field;
  }

  lemma EndRead(t: Transfer, end: string)
    requires !t.headersDone && t.head.bytes + |end| <= 65536 && EndText(end)
    ensures AfterCallback(t, Header(end, Done, true)) == Decided(Counted(t, |end|), Done, true)
  {
    hide Chomp, Field, StatusLine;
    assert !HasPrefix("", "HTTP/");
  }

  /** The callbacks of a response up to the decision. */
  lemma OpeningRead(t: Transfer, status: string, code: nat, fields: seq<string>, end: string)
    requires !t.headersDone && t.head == NO_HEAD && StatusText(status, code) && EndText(end) && forall x <- fields :: PlainText(x)
    requires |status| + Total(fields) + |end| <= 65536
    ensures var u := t.(head := Head(code, |status| + Total(fields) + |end|, false, false, false, 0, ""));
      Decided(u, Done, true).1 ==> Performed(t, Opening(status, fields, end)) == Decided(u, Done, true)
  {
    hide Decided, StatusText, PlainText, EndText, AfterCallback, Performed, Lines;
    var s := Statused(t, status, code);
    StatusRead(t, status, code);
    PerformedOne(t, Header(status, Done, true));
    PlainLines(s, fields);
    PerformedJoin(t, [Header(status, Done, true)], Lines(fields));
    var v := Counted(s, Total(fields));
    EndRead(v, end);
    if Decided(Counted(v, |end|), Done, true).1 {
      PerformedOne(v, Header(end, Done, true));
      PerformedJoin(t, [Header(status, Done, true)] + Lines(fields), [Header(end, Done, true)]);
    }
  }

  /** A transfer that has brought the whole file. */
  predicate Complete(t: Transfer, content: seq<byte>) {
    t.file == content && t.headersDone && t.error.None? && t.head.status != 416 && t.received == t.limit
  }

  /** A 200 response is written from byte zero, whatever was there before. */
  lemma FullResponse(file: seq<byte>, status: string, fields: seq<string>, end: string, parts: seq<seq<byte>>)
    requires |file| <= |Whole(parts)| && 0 < |Whole(parts)| <= INT64_MAX
    requires StatusText(status, 200) && EndText(end) && (forall x <- fields :: PlainText(x)) && |status| + Total(fields) + |end| <= 65536
    ensures var r := Performed(Fresh(file, 0, |file|, |Whole(parts)|), Opening(status, fields, end) + Pieces(parts));
      r.1 && Complete(r.0, Whole(parts))
  {
    hide StatusText, PlainText, EndText, Performed, Opening, Pieces, Whole, ExactRange;
    var t := Fresh(file, 0, |file|, |Whole(parts)|);
    var n := |status| + Total(fields) + |end|;
    var u := t.(head := Head(200, n, false, false, false, 0, ""));
    OpeningRead(t, status, 200, fields, end);
    var w := Decided(u, Done, true).0;
    assert Decided(u, Done, true).1 && w.file == [] && w.pos == 0 && Writing(w) && w.limit == |Whole(parts)|;
    PerformedJoin(t, Opening(status, fields, end), Pieces(parts));
    PiecesFill(w, parts);
    assert [] + Whole(parts) == Whole(parts);
  }

  /** A 416 for a partial file that is not complete asks for a restart. */
  lemma RefusedRange(file: seq<byte>, expected: nat, status: string, fields: seq<string>, end: string, parts: seq<seq<byte>>)
    requires |file| < expected <= INT64_MAX
    requires StatusText(status, 416) && EndText(end) && (forall x <- fields :: PlainText(x)) && |status| + Total(fields) + |end| <= 65536
    ensures var s := Performed(Fresh(file, 0, |file|, expected), Opening(status, fields, end) + Pieces(parts)).0;
      s.error.None? && s.headersDone && s.head.status == 416 && s.action == Restart && s.expected == expected
  {
    hide StatusText, PlainText, EndText, Performed, Opening, ExactRange;
    var t := Fresh(file, 0, |file|, expected);
    var u := t.(head := Head(416, |status| + Total(fields) + |end|, false, false, false, 0, ""));
    OpeningRead(t, status, 416, fields, end);
    var w := Decided(u, Done, true).0;
    PerformedJoin(t, Opening(status, fields, end), Pieces(parts));
    NothingWritten(w, parts);
  }

  lemma NothingWritten(t: Transfer, parts: seq<seq<byte>>)
    requires !Writing(t)
    ensures Performed(t, Pieces(parts)).0 == t
  {
  }

  /** A 206 response with the missing tail is appended. */
  lemma TailResponse(file: seq<byte>, content: seq<byte>, status: string, before: seq<string>, range: string, after: seq<string>, end: string,
                     parts: seq<seq<byte>>)
    requires 0 < |file| < |content| <= INT64_MAX && file <= content && Whole(parts) == content[|file|..]
    requires StatusText(status, 206) && EndText(end) && (forall x <- before :: PlainText(x)) && (forall x <- after :: PlainText(x))
    requires RangeField(range, ContentRange(|file|, |content| - 1, |content|))
    requires |status| + Total(before) + |range| + Total(after) + |end| <= 65536
    ensures var r := Performed(Fresh(file, 0, |file|, |content|), TailOpening(status, before, range, after, end) + Pieces(parts));
      r.1 && Complete(r.0, content)
  {
    hide StatusText, PlainText, EndText, RangeField, Performed, TailOpening, Pieces, Whole, ExactRange, ContentRange, Decided, AfterCallback, Total;
    var t := Fresh(file, 0, |file|, |content|);
    var value := ContentRange(|file|, |content| - 1, |content|);
    var u := t.(head := Head(206, |status| + Total(before) + |range| + Total(after) + |end|, true, false, false, 0, value));
    TailOpeningRead(t, status, before, range, value, after, end);
    var w := Decided(u, Done, true).0;
    TailDecided(file, content, |status| + Total(before) + |range| + Total(after) + |end|);
    PerformedJoin(t, TailOpening(status, before, range, after, end), Pieces(parts));
    PiecesFill(w, parts);
    assert file + content[|file|..] == content;
  }

  /** What the client decides on a 206 with the range of the tail. */
  lemma TailDecided(file: seq<byte>, content: seq<byte>, bytes: nat)
    requires 0 < |file| < |content| <= INT64_MAX
    ensures var u := Fresh(file, 0, |file|, |content|).(head := Head(206, bytes, true, false, false, 0, ContentRange(|file|, |content| - 1, |content|)));
      var d := Decided(u, Done, true);
      && d.1 && d.0.file == file && d.0.pos == |file| && Writing(d.0) && d.0.limit == |content| - |file| && d.0.received == 0
      && d.0.error.None? && d.0.head.status == 206
  {
    hide ExactRange, ContentRange;
    EndsAgree(|file|, |content|, Limits(128, 20));
  }

  function TailOpening(status: string, before: seq<string>, range: string, after: seq<string>, end: string): seq<Callback> {
    ((([Header(status, Done, true)] + Lines(before)) + [Header(range, Done, true)]) + Lines(after)) + [Header(end, Done, true)]
  }

  lemma RangeRead(t: Transfer, text: string, value: string)
    requires !t.headersDone && !t.head.rangeSeen && t.head.bytes + |text| <= 65536 && RangeField(text, value)
    ensures AfterCallback(t, Header(text, Done, true)) ==
            (t.(head := t.head.(bytes := t.head.bytes + |text|, rangeSeen := true, range := value)), true)
  {
    hide Chomp, Strip, Lower, IndexOf, HasPrefix, Decided, StatusLine;
  }

  lemma TailOpeningRead(t: Transfer, status: string, before: seq<string>, range: string, value: string, after: seq<string>, end: string)
    requires !t.headersDone && t.head == NO_HEAD && StatusText(status, 206) && EndText(end) && RangeField(range, value)
    requires (forall x <- before :: PlainText(x)) && (forall x <- after :: PlainText(x))
    requires |status| + Total(before) + |range| + Total(after) + |end| <= 65536
    ensures var u := t.(head := Head(206, |status| + Total(before) + |range| + Total(after) + |end|, true, false, false, 0, value));
      Decided(u, Done, true).1 ==> Performed(t, TailOpening(status, before, range, after, end)) == Decided(u, Done, true)
  {
    hide Decided, StatusText, PlainText, EndText, RangeField, AfterCallback, Performed, Lines;
    var start := ([Header(status, Done, true)] + Lines(before)) + [Header(range, Done, true)];
    var x := t.(head := Head(206, |status| + Total(before) + |range|, true, false, false, 0, value));
    RangeHalfRead(t, status, before, range, value);
    PlainLines(x, after);
    PerformedJoin(t, start, Lines(after));
    var y := Counted(x, Total(after));
    EndRead(y, end);
    if Decided(Counted(y, |end|), Done, true).1 {
      PerformedOne(y, Header(end, Done, true));
      PerformedJoin(t, start + Lines(after), [Header(end, Done, true)]);
    }
  }

  /** ... up to the range. */
  lemma RangeHalfRead(t: Transfer, status: string, before: seq<string>, range: string, value: string)
    requires !t.headersDone && t.head == NO_HEAD && StatusText(status, 206) && RangeField(range, value)
    requires (forall x <- before :: PlainText(x)) && |status| + Total(before) + |range| <= 65536
    ensures Performed(t, ([Header(status, Done, true)] + Lines(before)) + [Header(range, Done, true)]) ==
            (t.(head := Head(206, |status| + Total(before) + |range|, true, false, false, 0, value)), true)
  {
    hide Decided, StatusText, PlainText, EndText, RangeField, AfterCallback, Performed, Lines;
    var first, middle := Header(status, Done, true), Header(range, Done, true);
    var s := Statused(t, status, 206);
    StatusRead(t, status, 206);
    PerformedOne(t, first);
    PlainLines(s, before);
    PerformedJoin(t, [first], Lines(before));
    var v := Counted(s, Total(before));
    RangeRead(v, range, value);
    PerformedOne(v, middle);
    PerformedJoin(t, [first] + Lines(before), [middle]);
  }

  // ---------------------------------------------------------------- as it looks on the wire

  lemma LineEnds(line: string)
    requires line != "" && !Blank(line[|line| - 1])
    ensures Chomp(line + "\r\n") == line && Chomp("\r\n") == ""
  {
    assert (line + "\r\n")[..|line| + 1] == line + "\r" && (line + "\r")[..|line|] == line;
    assert Chomp(line + "\r\n") == Chomp(line + "\r") == Chomp(line) == line;
    assert "\r\n"[..1] == "\r" && "\r"[..0] == "";
    assert Chomp("\r\n") == Chomp("\r") == Chomp("");
  }

  /** The status lines a server sends, and the empty line. */
  lemma OnTheWire()
    ensures StatusText("HTTP/1.1 200\r\n", 200) && StatusText("HTTP/1.1 206\r\n", 206) && StatusText("HTTP/1.1 416\r\n", 416)
    ensures EndText("\r\n")
  {
    hide StatusText, Chomp, EndText;
    assert "HTTP/1.1 " + ['2', '0', '0'] + "\r\n" == "HTTP/1.1 200\r\n";
    assert "HTTP/1.1 " + ['2', '0', '6'] + "\r\n" == "HTTP/1.1 206\r\n";
    assert "HTTP/1.1 " + ['4', '1', '6'] + "\r\n" == "HTTP/1.1 416\r\n";
    StatusLineText('2', '0', '0');
    StatusLineText('2', '0', '6');
    StatusLineText('4', '1', '6');
    EmptyLine();
  }

  lemma EmptyLine()
    ensures EndText("\r\n")
  {
    LineEnds("x");
  }

  lemma StatusLineText(a: char, b: char, c: char)
    requires IsDigit(a) && IsDigit(b) && IsDigit(c)
    ensures StatusText("HTTP/1.1 " + [a, b, c] + "\r\n", DigitOf(a) * 100 + DigitOf(b) * 10 + DigitOf(c))
  {
    var line := "HTTP/1.1 " + [a, b, c];
    LineEnds(line);
    assert line[8] == ' ' && ' ' !in line[..8];
    IndexIs(line, ' ', 8);
    assert line[8..] == [' ', a, b, c];
    assert line[..5] == "HTTP/";
  }

  /** The Content-Range field of the server's own 206 response. */
  lemma RangeOnTheWire(p: nat, size: nat)
    requires 0 < p < size <= INT64_MAX
    ensures RangeField("Content-Range: " + ContentRange(p, size - 1, size) + "\r\n", ContentRange(p, size - 1, size))
  {
    hide ContentRange, Chomp, Strip, IndexOf, Print, Value;
    var value := ContentRange(p, size - 1, size);
    RangeValue(p, size);
    var line := "Content-Range: " + value;
    LineEnds(line);
    RangeLine(value);
    IndexIs(line, ':', 13);
    StripSpace(value);
    assert Lower("Content-Range") == "content-range";
    assert line[0] == 'C' && "HTTP/"[0] == 'H';
  }

  lemma RangeLine(value: string)
    ensures var line := "Content-Range: " + value;
      line[13] == ':' && line[..13] == "Content-Range" && ':' !in line[..13] && line[14..] == " " + value
  {
    var line := "Content-Range: " + value;
    assert "Content-Range: " == "Content-Range:" + " ";
    assert line == "Content-Range:" + (" " + value);
  }

  lemma RangeValue(p: nat, size: nat)
    requires 0 < p < size <= INT64_MAX
    ensures var v := ContentRange(p, size - 1, size);
      v != "" && |v| < 128 && '\0' !in v && !Blank(v[0]) && !Blank(v[|v| - 1])
  {
    hide Print, Value;
    TenTo19();
    PrintLength(p, 19);
    PrintLength(size - 1, 19);
    PrintLength(size, 19);
    PrintValue(p);
    PrintValue(size - 1);
    PrintValue(size);
    var a, b, c := Print(p), Print(size - 1), Print(size);
    var v := "bytes " + (a + ("-" + (b + ("/" + c))));
    assert v == ContentRange(p, size - 1, size);
    assert v[|v| - 1] == c[|c| - 1] && IsDigit(c[|c| - 1]);
    assert v[0] == 'b';
  }

  lemma StripSpace(value: string)
    requires value != "" && !Blank(value[0]) && !Blank(value[|value| - 1])
    ensures Strip(" " + value) == value
  {
    assert (" " + value)[1..] == value;
    assert Strip(" " + value) == Strip(value) == Chomp(value) == value;
  }

  // ---------------------------------------------------------------- the whole download

  /** Every disk operation the download makes works. */
  predicate DiskWorks(e: Environment) {
    && e.bundleReadable && e.discard && e.fileOpen && e.locked && e.space && e.resetLarge.Done? && e.reset416.Done?
    && e.readable && e.sameFile && e.synced && e.renamed && e.dirSynced
  }

  /** What the partial file holds when the first request goes out. */
  function Begins(size: nat, part: Option<seq<byte>>): seq<byte> {
    if part.None? || |part.value| > size then [] else part.value
  }

  /** No bundle of the promised content is there yet. */
  ghost predicate Wanted(p: Promise, bundle: Option<seq<byte>>) {
    bundle.Some? ==> !Keeps(p, bundle.value)
  }

  lemma OnceFetched(p: Promise, e: Environment, part: Option<seq<byte>>, bundle: Option<seq<byte>>, content: seq<byte>)
    requires DiskWorks(e) && Wanted(p, bundle) && Keeps(p, content) && |Begins(p.size, part)| < p.size
    requires var file := Begins(p.size, part); Fetched(Fresh(file, 0, |file|, p.size), e).1 && Fetched(Fresh(file, 0, |file|, p.size), e).0.file == content
    ensures Succeeds(p, e, part, bundle) && Obtained(p.size, e, part) == Some(content)
  {
    hide Fetched;
  }

  /** The server sends the whole content: it is published, whatever partial file there was. */
  lemma WholeDownload(p: Promise, e: Environment, part: Option<seq<byte>>, bundle: Option<seq<byte>>,
                      status: string, fields: seq<string>, end: string, parts: seq<seq<byte>>)
    requires 0 < p.size <= INT64_MAX && DiskWorks(e) && Wanted(p, bundle) && Keeps(p, Whole(parts)) && |Begins(p.size, part)| < p.size
    requires StatusText(status, 200) && EndText(end) && (forall x <- fields :: PlainText(x)) && |status| + Total(fields) + |end| <= 65536
    requires e.first.connected && e.first.transport
    requires e.first.calls(Fresh(Begins(p.size, part), 0, |Begins(p.size, part)|, p.size)) == Opening(status, fields, end) + Pieces(parts)
    ensures Succeeds(p, e, part, bundle) && Obtained(p.size, e, part) == Some(Whole(parts))
  {
    hide Performed, StatusText, PlainText, EndText, Opening, Pieces, Succeeds, Obtained;
    var file := Begins(p.size, part);
    FullResponse(file, status, fields, end, parts);
    OnceFetched(p, e, part, bundle, Whole(parts));
  }

  /** The server sends the tail that is missing from a nonempty prefix. */
  lemma ResumedDownload(p: Promise, e: Environment, file: seq<byte>, bundle: Option<seq<byte>>, content: seq<byte>,
                        status: string, before: seq<string>, range: string, after: seq<string>, end: string, parts: seq<seq<byte>>)
    requires p.size <= INT64_MAX && DiskWorks(e) && Wanted(p, bundle) && Keeps(p, content)
    requires 0 < |file| < |content| && file <= content && Whole(parts) == content[|file|..]
    requires StatusText(status, 206) && EndText(end) && (forall x <- before :: PlainText(x)) && (forall x <- after :: PlainText(x))
    requires RangeField(range, ContentRange(|file|, |content| - 1, |content|))
    requires |status| + Total(before) + |range| + Total(after) + |end| <= 65536
    requires e.first.connected && e.first.transport
    requires e.first.calls(Fresh(file, 0, |file|, p.size)) == TailOpening(status, before, range, after, end) + Pieces(parts)
    ensures Succeeds(p, e, Some(file), bundle) && Obtained(p.size, e, Some(file)) == Some(content)
  {
    hide Performed, StatusText, PlainText, EndText, RangeField, TailOpening, Pieces, Whole, Succeeds, Obtained, ContentRange;
    TailResponse(file, content, status, before, range, after, end, parts);
    OnceFetched(p, e, Some(file), bundle, content);
  }

  /** The server refuses the range with 416, and on the second attempt sends the whole content. */
  lemma RestartedDownload(p: Promise, e: Environment, part: Option<seq<byte>>, bundle: Option<seq<byte>>,
                          refusal: string, refusalFields: seq<string>, refusalEnd: string, refusalBody: seq<seq<byte>>,
                          status: string, fields: seq<string>, end: string, parts: seq<seq<byte>>)
    requires 0 < p.size <= INT64_MAX && DiskWorks(e) && e.first.spaceAfter && Wanted(p, bundle) && Keeps(p, Whole(parts))
    requires |Begins(p.size, part)| < p.size
    requires StatusText(refusal, 416) && EndText(refusalEnd) && (forall x <- refusalFields :: PlainText(x))
    requires |refusal| + Total(refusalFields) + |refusalEnd| <= 65536
    requires StatusText(status, 200) && EndText(end) && (forall x <- fields :: PlainText(x)) && |status| + Total(fields) + |end| <= 65536
    requires e.first.connected && e.second.connected && e.second.transport
    requires e.first.calls(Fresh(Begins(p.size, part), 0, |Begins(p.size, part)|, p.size)) ==
             Opening(refusal, refusalFields, refusalEnd) + Pieces(refusalBody)
    requires e.second.calls(Fresh([], 0, 0, p.size)) == Opening(status, fields, end) + Pieces(parts)
    ensures Succeeds(p, e, part, bundle) && Obtained(p.size, e, part) == Some(Whole(parts))
  {
    hide Performed, StatusText, PlainText, EndText, Opening, Pieces, Succeeds, Obtained;
    var file := Begins(p.size, part);
    RefusedRange(file, p.size, refusal, refusalFields, refusalEnd, refusalBody);
    FullResponse([], status, fields, end, parts);
    OnceFetched(p, e, part, bundle, Whole(parts));
  }
}
