/**
 Resumable download (download.c): the HTTP callbacks that may change the partial file, its
 verification, and its publication under the bundle's name.
 */
module Download {
  import opened Bytes
  import opened Wrappers
  import opened Decimal
  import opened Range

  const MAX_HEADER_BYTES := 65536
  const RANGE_CAP := 128

  datatype Fault = Http | RangeMismatch | SizeMismatch | HashMismatch | Disk

  /** What the header lines of the current response have said. */
  datatype Head = Head(status: nat, bytes: nat, rangeSeen: bool, lengthSeen: bool, encodingSeen: bool, length: nat, range: string)

  /** Transfer and the file behind its descriptor: contents and offset. */
  datatype Transfer = Transfer(file: seq<byte>, pos: nat, partial: nat, expected: nat, received: nat, limit: nat,
                               headersDone: bool, action: Action, error: Option<Fault>, head: Head)

  const NO_HEAD := Head(0, 0, false, false, false, 0, "")

  /** A transfer about to be performed on a partial file. */
  function Fresh(file: seq<byte>, pos: nat, partial: nat, expected: nat): Transfer {
    Transfer(file, pos, partial, expected, 0, 0, false, Reject, None, NO_HEAD)
  }

  /** How ftruncate, lseek and fsync of reset_file go. */
  datatype Reset = Done | TruncateFailed | SeekFailed | SyncFailed

  function Emptied(t: Transfer, r: Reset): Transfer {
    match r
    case Done => t.(file := [], pos := 0)
    case TruncateFailed => t.(error := Some(Disk))
    case SeekFailed => t.(file := [], error := Some(Disk))
    case SyncFailed => t.(file := [], pos := 0, error := Some(Disk))
  }

  // ---------------------------------------------------------------- header lines

  /** g_ascii_isspace */
  predicate Blank(c: char) {
    c == ' ' || 9 <= c as int <= 13
  }

  function Chomp(s: string): string {
    if s != "" && Blank(s[|s| - 1]) then Chomp(s[..|s| - 1]) else s
  }

  function Strip(s: string): string {
    if s != "" && Blank(s[0]) then Strip(s[1..]) else Chomp(s)
  }

  function Lower(s: string): string {
    seq(|s|, i requires 0 <= i < |s| => if 'A' <= s[i] <= 'Z' then (s[i] as int + 32) as char else s[i])
  }

  /** The code of a status line, if it is well formed. */
  function StatusOf(line: string): Option<nat> {
    var p := line[IndexOf(line, ' ')..];
    if |p| < 4 || !IsDigit(p[1]) || !IsDigit(p[2]) || !IsDigit(p[3]) || (|p| > 4 && p[4] != ' ') then None
    else Some(DigitOf(p[1]) * 100 + DigitOf(p[2]) * 10 + DigitOf(p[3]))
  }

  datatype Read = Good(head: Head) | Bad(fault: Fault)

  /** A header field before the decision. */
  function Field(h: Head, line: string): Read {
    var colon := IndexOf(line, ':');
    if colon == |line| then Bad(Http)
    else
      var name, value := Lower(line[..colon]), Strip(line[colon + 1..]);
      if name == "content-range" then
        if h.rangeSeen || |value| >= RANGE_CAP then Bad(RangeMismatch) else Good(h.(rangeSeen := true, range := value))
      else if name == "content-length" then
        var n := TakeDecimal(value);
        if h.lengthSeen || n.None? || n.value.rest != "" then Bad(SizeMismatch)
        else Good(h.(lengthSeen := true, length := n.value.value))
      else if name == "content-encoding" then
        if h.encodingSeen || Lower(value) != "identity" then Bad(Http) else Good(h.(encodingSeen := true))
      else Good(h)
  }

  /** A status line starts a response afresh. */
  function StatusLine(h: Head, line: string, done: bool): Read {
    if done || StatusOf(line).None? then Bad(Http)
    else Good(Head(StatusOf(line).value, h.bytes, false, false, false, h.length, ""))
  }

  function Failed(t: Transfer, f: Fault): Transfer {
    t.(error := Some(f))
  }

  function Sent(h: Head): Option<string> {
    if h.rangeSeen then Some(h.range) else None
  }

  /** The end of the headers: the response is decided before any byte is written. */
  function Decided(t: Transfer, reset: Reset, seekOk: bool): (r: (Transfer, bool)) {
    if 100 <= t.head.status < 200 && t.head.status != 101 then (t, true)
    else
      var action := Response(t.partial, t.expected, t.head.status, Sent(t.head));
      if action == Reject then (Failed(t.(action := Reject), if t.head.status == 206 || t.head.status == 200 then RangeMismatch else Http), false)
      else if action == WriteZero || action == Append then Gate(t.(action := action, headersDone := true), reset, seekOk)
      else (t.(action := action, headersDone := true), true)
  }

  /** A response that will be written: its length, then the file's offset. */
  function Gate(t: Transfer, reset: Reset, seekOk: bool): (Transfer, bool)
    requires t.partial <= t.expected || t.action != Append
  {
    var u := t.(limit := if t.action == Append then t.expected - t.partial else t.expected);
    if t.head.lengthSeen && t.head.length != u.limit then (Failed(u, SizeMismatch), false)
    else if t.action == WriteZero then (Emptied(u, reset), reset.Done?)
    else if seekOk then (u.(pos := t.partial), true)
    else (Failed(u, Disk), false)
  }

  function WithHead(t: Transfer, r: Read): (Transfer, bool) {
    match r
    case Good(head) => (t.(head := head), true)
    case Bad(fault) => (Failed(t, fault), false)
  }

  /** headers: one callback, with the outcome of the disk operations it may make. */
  function AfterHeader(t: Transfer, text: string, reset: Reset, seekOk: bool): (Transfer, bool) {
    if t.head.bytes + |text| > MAX_HEADER_BYTES || '\0' in text then (Failed(t, Http), false)
    else
      var s := t.(head := t.head.(bytes := t.head.bytes + |text|));
      var line := Chomp(text);
      if HasPrefix(line, "HTTP/") then WithHead(s, StatusLine(s.head, line, s.headersDone))
      else if s.headersDone then (s, true)
      else if line == "" then Decided(s, reset, seekOk)
      else WithHead(s, Field(s.head, line))
  }

  // ---------------------------------------------------------------- body

  /** write at an offset; a hole reads as zeros. */
  function WrittenAt(file: seq<byte>, pos: nat, data: seq<byte>): seq<byte> {
    if data == [] then file
    else
      var padded := if pos <= |file| then file else file + seq(pos - |file|, _ => 0);
      padded[..pos] + data + (if pos + |data| <= |padded| then padded[pos + |data|..] else [])
  }

  predicate Writing(t: Transfer) {
    t.headersDone && (t.action == Append || t.action == WriteZero)
  }

  /** body: one callback, of which the disk takes the first `taken` bytes. */
  function AfterBody(t: Transfer, data: seq<byte>, taken: nat): (Transfer, bool) {
    if !Writing(t) then (t, false)
    else if t.received + |data| > t.limit then (Failed(t, SizeMismatch), false)
    else
      var n := if taken < |data| then taken else |data|;
      var s := t.(file := WrittenAt(t.file, t.pos, data[..n]), pos := t.pos + n, received := t.received + n);
      if n < |data| then (Failed(s, Disk), false) else (s, true)
  }

  datatype Callback =
    | Header(text: string, reset: Reset, seekOk: bool)
    | Body(data: seq<byte>, taken: nat)

  function AfterCallback(t: Transfer, c: Callback): (Transfer, bool) {
    match c
    case Header(text, reset, seekOk) => AfterHeader(t, text, reset, seekOk)
    case Body(data, taken) => AfterBody(t, data, taken)
  }

  /** curl_easy_perform: callbacks until one of them refuses. */
  function Performed(t: Transfer, calls: seq<Callback>): (Transfer, bool)
    decreases |calls|
  {
    if calls == [] then (t, true)
    else
      var (s, ok) := AfterCallback(t, calls[0]);
      if ok then Performed(s, calls[1..]) else (s, false)
  }

  // ---------------------------------------------------------------- what callbacks cannot do

  /** The file is the partial file on entry, or that with what was appended, or what came from zero. */
  ghost predicate Sound(t: Transfer, initial: seq<byte>) {
    && 0 < t.expected <= INT64_MAX && t.partial == |initial| <= t.expected
    && (!Writing(t) ==> t.file == initial && t.received == 0)
    && (Writing(t) && t.action == Append ==>
      && initial <= t.file && |t.file| == t.partial + t.received && t.limit == t.expected - t.partial && t.received <= t.limit
      && (t.error.None? ==> t.pos == |t.file|))
    && (Writing(t) && t.action == WriteZero ==>
      && t.limit == t.expected && t.received <= t.limit && |t.file| <= t.expected
      && (t.error.None? ==> |t.file| == t.received && t.pos == t.received))
  }

  lemma DecidedSound(t: Transfer, reset: Reset, seekOk: bool, initial: seq<byte>)
    requires Sound(t, initial) && t.error.None? && !t.headersDone
    ensures var (s, ok) := Decided(t, reset, seekOk); Sound(s, initial) && (ok ==> s.error.None?)
  {
    hide ExactRange;
    var action := Response(t.partial, t.expected, t.head.status, Sent(t.head));
    if action == WriteZero || action == Append {
      GateSound(t.(action := action, headersDone := true), reset, seekOk, initial);
    }
  }

  lemma GateSound(t: Transfer, reset: Reset, seekOk: bool, initial: seq<byte>)
    requires 0 < t.expected <= INT64_MAX && t.partial == |initial| <= t.expected && t.file == initial && t.received == 0
    requires Writing(t) && t.error.None?
    ensures var (s, ok) := Gate(t, reset, seekOk); Sound(s, initial) && (ok ==> s.error.None?)
  {
  }

  lemma HeadSound(t: Transfer, s: Transfer, initial: seq<byte>)
    requires Sound(t, initial) && t.error.None?
    requires s == t.(head := s.head, error := s.error)
    ensures Sound(s, initial)
  {
  }

  lemma HeaderSound(t: Transfer, text: string, reset: Reset, seekOk: bool, initial: seq<byte>)
    requires Sound(t, initial) && t.error.None?
    ensures var (s, ok) := AfterHeader(t, text, reset, seekOk); Sound(s, initial) && (ok ==> s.error.None?)
  {
    hide Chomp, Field, StatusLine, Decided, Sound, HasPrefix;
    var counted := t.(head := t.head.(bytes := t.head.bytes + |text|));
    HeadSound(t, counted, initial);
    var s := AfterHeader(t, text, reset, seekOk).0;
    if !t.headersDone && Chomp(text) == "" && !HasPrefix(Chomp(text), "HTTP/") {
      DecidedSound(counted, reset, seekOk, initial);
    }
    if s == t.(head := s.head, error := s.error) {
      HeadSound(t, s, initial);
    }
  }

  lemma BodySound(t: Transfer, data: seq<byte>, taken: nat, initial: seq<byte>)
    requires Sound(t, initial) && t.error.None?
    ensures var (s, ok) := AfterBody(t, data, taken); Sound(s, initial) && (ok ==> s.error.None?)
  {
    if Writing(t) && t.received + |data| <= t.limit {
      var n := if taken < |data| then taken else |data|;
      assert WrittenAt(t.file, t.pos, data[..n]) == t.file + data[..n];
    }
  }

  lemma CallbackSound(t: Transfer, c: Callback, initial: seq<byte>)
    requires Sound(t, initial) && t.error.None?
    ensures var (s, ok) := AfterCallback(t, c); Sound(s, initial) && (ok ==> s.error.None?)
  {
    hide AfterHeader, AfterBody, Sound;
    match c
    case Header(text, reset, seekOk) => HeaderSound(t, text, reset, seekOk, initial);
    case Body(data, taken) => BodySound(t, data, taken, initial);
  }

  /**
   Whatever the server and the disk do, the partial file never outgrows the expected size, and a
   resumed transfer never alters the bytes that were there.
   */
  lemma {:induction false} PerformedSound(t: Transfer, calls: seq<Callback>, initial: seq<byte>)
    requires Sound(t, initial) && t.error.None?
    ensures var (s, ok) := Performed(t, calls); Sound(s, initial) && (ok ==> s.error.None?)
    decreases |calls|
  {
    hide AfterCallback, Sound;
    if calls != [] {
      CallbackSound(t, calls[0], initial);
      var (s, ok) := AfterCallback(t, calls[0]);
      if ok {
        PerformedSound(s, calls[1..], initial);
      }
    }
  }

  lemma PartialIsBounded(initial: seq<byte>, pos: nat, expected: nat, calls: seq<Callback>)
    requires |initial| <= expected && 0 < expected <= INT64_MAX
    ensures var (s, ok) := Performed(Fresh(initial, pos, |initial|, expected), calls);
      && |s.file| <= expected
      && (!(s.headersDone && s.action == WriteZero) ==> initial <= s.file)
  {
    hide Performed;
    var s := Performed(Fresh(initial, pos, |initial|, expected), calls).0;
    PerformedSound(Fresh(initial, pos, |initial|, expected), calls, initial);
    assert Sound(s, initial);
    if Writing(s) {
      assert s.expected == expected by { ExpectedKept(Fresh(initial, pos, |initial|, expected), calls); }
    }
  }

  lemma {:induction false} ExpectedKept(t: Transfer, calls: seq<Callback>)
    ensures Performed(t, calls).0.expected == t.expected
    decreases |calls|
  {
    if calls != [] {
      hide Response, Chomp, Field, StatusLine, WrittenAt;
      var (s, ok) := AfterCallback(t, calls[0]);
      if ok {
        ExpectedKept(s, calls[1..]);
      }
    }
  }

  // ---------------------------------------------------------------- an honest server

  /** The first position a Content-Range names. */
  function RangeStart(range: string): nat {
    if HasPrefix(range, "bytes ") && TakeDecimal(range[6..]).Some? then TakeDecimal(range[6..]).value.value else 0
  }

  /** Where in the artifact the next body byte comes from. */
  function NextByte(t: Transfer): nat {
    (if t.head.status == 206 then RangeStart(t.head.range) else 0) + t.received
  }

  /** Body bytes are the artifact's, from zero or from where the server's own Content-Range says. */
  ghost predicate HonestCall(t: Transfer, c: Callback, artifact: seq<byte>) {
    c.Body? && Writing(t) ==> NextByte(t) + |c.data| <= |artifact| && c.data == artifact[NextByte(t)..NextByte(t) + |c.data|]
  }

  ghost predicate Honest(t: Transfer, calls: seq<Callback>, artifact: seq<byte>)
    decreases |calls|
  {
    calls != [] ==>
      HonestCall(t, calls[0], artifact) &&
      var (s, ok) := AfterCallback(t, calls[0]); ok ==> Honest(s, calls[1..], artifact)
  }

  /** The file's end is where the artifact continues. */
  ghost predicate Aligned(t: Transfer, artifact: seq<byte>) {
    && t.file <= artifact
    && (Writing(t) && t.error.None? ==> NextByte(t) == |t.file| == t.pos)
  }

  lemma AppendStartsAtPartial(t: Transfer)
    requires Response(t.partial, t.expected, t.head.status, Sent(t.head)) == Append
    ensures t.head.status == 206 && RangeStart(t.head.range) == t.partial
  {
    hide TakeDecimal;
  }

  lemma DecidedAligned(t: Transfer, reset: Reset, seekOk: bool, initial: seq<byte>, artifact: seq<byte>)
    requires Sound(t, initial) && t.error.None? && !t.headersDone && t.file <= artifact
    ensures Aligned(Decided(t, reset, seekOk).0, artifact)
  {
    hide ExactRange, RangeStart;
    if Response(t.partial, t.expected, t.head.status, Sent(t.head)) == Append {
      AppendStartsAtPartial(t);
    }
  }

  lemma HeaderAligned(t: Transfer, text: string, reset: Reset, seekOk: bool, initial: seq<byte>, artifact: seq<byte>)
    requires Sound(t, initial) && t.error.None? && Aligned(t, artifact)
    ensures Aligned(AfterHeader(t, text, reset, seekOk).0, artifact)
  {
    hide Chomp, Field, StatusOf, Decided, HasPrefix, Sound, RangeStart;
    var counted := t.(head := t.head.(bytes := t.head.bytes + |text|));
    HeadSound(t, counted, initial);
    if !t.headersDone {
      DecidedAligned(counted, reset, seekOk, initial, artifact);
    }
  }

  lemma BodyAligned(t: Transfer, data: seq<byte>, taken: nat, artifact: seq<byte>)
    requires t.error.None? && Aligned(t, artifact) && HonestCall(t, Body(data, taken), artifact)
    ensures Aligned(AfterBody(t, data, taken).0, artifact)
  {
    hide RangeStart;
    if Writing(t) && t.received + |data| <= t.limit {
      var n := if taken < |data| then taken else |data|;
      assert WrittenAt(t.file, t.pos, data[..n]) == t.file + data[..n];
      assert t.file + data[..n] == artifact[..|t.file| + n];
    }
  }

  lemma CallbackAligned(t: Transfer, c: Callback, initial: seq<byte>, artifact: seq<byte>)
    requires Sound(t, initial) && t.error.None? && Aligned(t, artifact) && HonestCall(t, c, artifact)
    ensures Aligned(AfterCallback(t, c).0, artifact)
  {
    hide AfterHeader, AfterBody, Sound, Aligned;
    match c
    case Header(text, reset, seekOk) => HeaderAligned(t, text, reset, seekOk, initial, artifact);
    case Body(data, taken) => BodyAligned(t, data, taken, artifact);
  }

  /** Against an honest server that may break off anywhere, the partial file stays a prefix of the artifact. */
  lemma {:induction false} StaysPrefix(t: Transfer, calls: seq<Callback>, initial: seq<byte>, artifact: seq<byte>)
    requires Sound(t, initial) && t.error.None? && Aligned(t, artifact) && Honest(t, calls, artifact)
    ensures Performed(t, calls).0.file <= artifact
    decreases |calls|
  {
    hide AfterCallback, Sound, Aligned, HonestCall;
    AlignedPrefix(t, artifact);
    if calls != [] {
      CallbackSound(t, calls[0], initial);
      CallbackAligned(t, calls[0], initial, artifact);
      var (s, ok) := AfterCallback(t, calls[0]);
      AlignedPrefix(s, artifact);
      if ok {
        StaysPrefix(s, calls[1..], initial, artifact);
      }
    }
  }

  lemma AlignedPrefix(t: Transfer, artifact: seq<byte>)
    requires Aligned(t, artifact)
    ensures t.file <= artifact
  {
  }
}
