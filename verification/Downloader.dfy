/** The download as it runs (download.c): callbacks on one Transfer, then verification and publication. */
module Downloader {
  import opened Bytes
  import opened Wrappers
  import opened Decimal
  import opened Range
  import opened Download

  /** What the manifest promises. `sha` stands for SHA-256 in hexadecimal. */
  datatype Promise = Promise(size: nat, hash: string, sha: seq<byte> -> string)

  ghost predicate Keeps(p: Promise, content: seq<byte>) {
    |content| == p.size && p.sha(content) == p.hash
  }

  /** One attempt's environment: the server's callbacks on the transfer it meets, and curl's verdict. */
  datatype Attempt = Attempt(connected: bool, calls: Transfer -> seq<Callback>, transport: bool, spaceAfter: bool)

  datatype Environment = Environment(
    bundleReadable: bool, discard: bool,          // validate_bundle_path's I/O, ota_download_discard_partial
    fileOpen: bool, locked: bool, space: bool,
    resetLarge: Reset, reset416: Reset, resetMismatch: Reset,
    first: Attempt, second: Attempt,
    readable: bool, sameFile: bool, synced: bool, renamed: bool, dirSynced: bool)

  /** One GET, from the transfer it meets: the transfer it leaves, and whether curl was content. */
  function Got(t: Transfer, a: Attempt): (Transfer, bool) {
    var r := Performed(t, a.calls(t));
    (r.0, r.1 && a.transport)
  }

  /** How the second attempt of the loop ends. */
  function FetchedAgain(t: Transfer, e: Environment): (Transfer, bool) {
    if !e.second.connected then (t, false)
    else
      var (s, ok) := Got(t, e.second);
      if s.error.Some? then (s, false)
      else if s.headersDone && s.head.status == 416 then
        if s.action == Verify then (s, true) else (Emptied(s, e.reset416), false)
      else (s, ok && s.headersDone && s.received == s.limit)
  }

  /** The loop: a 416 that cannot be verified empties the file and is tried once more, from zero. */
  function Fetched(t: Transfer, e: Environment): (Transfer, bool) {
    if !e.first.connected then (t, false)
    else
      var (s, ok) := Got(t, e.first);
      if s.error.Some? then (s, false)
      else if s.headersDone && s.head.status == 416 then
        if s.action == Verify then (s, true)
        else if !e.reset416.Done? then (Emptied(s, e.reset416), false)
        else if !e.first.spaceAfter then (Fresh([], 0, 0, s.expected), false)
        else FetchedAgain(Fresh([], 0, 0, s.expected), e)
      else (s, ok && s.headersDone && s.received == s.limit)
  }

  /** The contents that come to be verified, if the transfer is completed. */
  function Obtained(size: nat, e: Environment, part: Option<seq<byte>>): Option<seq<byte>> {
    var found := if part.Some? then part.value else [];
    if !e.fileOpen || !e.locked || (|found| > size && !e.resetLarge.Done?) then None
    else
      var file := if |found| > size then [] else found;
      if |file| == size then Some(file)
      else if !e.space then None
      else
        var (t, complete) := Fetched(Fresh(file, 0, |file|, size), e);
        if complete then Some(t.file) else None
  }

  /** What the download comes to: a kept bundle stays, otherwise the verified contents are published. */
  ghost predicate Succeeds(p: Promise, e: Environment, part: Option<seq<byte>>, bundle: Option<seq<byte>>) {
    if bundle.Some? && !e.bundleReadable then false
    else if bundle.Some? && Keeps(p, bundle.value) then e.discard
    else
      && Obtained(p.size, e, part).Some? && e.readable && Keeps(p, Obtained(p.size, e, part).value)
      && e.sameFile && e.synced && e.renamed && e.dirSynced
  }

  class Downloads {
    var part: Option<seq<byte>>
    var bundle: Option<seq<byte>>
    var t: Transfer

    constructor (part: Option<seq<byte>>, bundle: Option<seq<byte>>)
      ensures this.part == part && this.bundle == bundle
    {
      this.part, this.bundle, t := part, bundle, Fresh([], 0, 0, 0);
    }

    /** headers */
    method Headers(text: string, reset: Reset, seekOk: bool) returns (ok: bool)
      modifies this`t
      ensures (t, ok) == AfterHeader(old(t), text, reset, seekOk)
    {
      var r := AfterHeader(t, text, reset, seekOk);
      t, ok := r.0, r.1;
    }

    /** body: the write loop; the disk takes `taken` bytes of this call at most. */
    method Body(data: seq<byte>, taken: nat) returns (ok: bool)
      modifies this`t
      ensures (t, ok) == AfterBody(old(t), data, taken)
    {
      hide WrittenAt;
      if !t.headersDone || (t.action != Append && t.action != WriteZero) {
        return false;
      }
      if t.received + |data| > t.limit {
        t := t.(error := Some(SizeMismatch));
        return false;
      }
      ghost var start := t;
      WrittenNone(t.file, t.pos);
      var used := 0;
      while used < |data|
        invariant 0 <= used <= |data| && used <= taken
        invariant t == start.(file := WrittenAt(start.file, start.pos, data[..used]), pos := start.pos + used, received := start.received + used)
        decreases |data| - used
      {
        if used == taken {
          t := t.(error := Some(Disk));
          return false;
        }
        var wrote: int := *;
        var room := (if taken < |data| then taken else |data|) - used;
        wrote := if wrote <= 0 || wrote > room then room else wrote;
        WrittenMore(start.file, start.pos, data[..used], data[used..used + wrote]);
        assert data[..used] + data[used..used + wrote] == data[..used + wrote];
        t := t.(file := WrittenAt(t.file, t.pos, data[used..used + wrote]), pos := t.pos + wrote, received := t.received + wrote);
        used := used + wrote;
      }
      assert data[..|data|] == data;
      ok := true;
    }

    /** curl_easy_perform with these callbacks. */
    method Perform(calls: seq<Callback>) returns (ok: bool)
      modifies this`t
      ensures (t, ok) == Performed(old(t), calls)
    {
      hide AfterCallback;
      var i := 0;
      ok := true;
      while i < |calls|
        invariant 0 <= i <= |calls|
        invariant Performed(old(t), calls) == Performed(t, calls[i..])
      {
        assert calls[i..][1..] == calls[i + 1..];
        CallbackIs(t, calls[i]);
        match calls[i] {
          case Header(text, reset, seekOk) => ok := Headers(text, reset, seekOk);
          case Body(data, taken) => ok := Body(data, taken);
        }
        if !ok {
          return;
        }
        i := i + 1;
      }
    }

    /** reset_file */
    method ResetFile(r: Reset) returns (ok: bool)
      modifies this`t
      ensures t == Emptied(old(t), r) && ok == r.Done?
    {
      t := Emptied(t, r);
      ok := r.Done?;
    }

    /** verify: size, then the hash of what is read in pieces; invalid complete data is discarded. */
    method VerifyFile(p: Promise, readable: bool, r: Reset) returns (ok: bool)
      requires t.expected == p.size
      modifies this`t
      ensures ok ==> t.file == old(t).file && Keeps(p, t.file)
      ensures t.file == old(t).file || t.file == []
      ensures ok <==> readable && Keeps(p, old(t).file)
    {
      if |t.file| != t.expected {
        t := t.(error := Some(SizeMismatch));
        return false;
      }
      var bytes, content := 0, [];
      while bytes < |t.file|
        invariant 0 <= bytes <= |t.file| && content == t.file[..bytes] && t == old(t)
      {
        if !readable {
          t := t.(error := Some(Disk));
          return false;
        }
        var n: int := *;
        n := if n <= 0 || n > |t.file| - bytes then |t.file| - bytes else n;
        assert t.file[..bytes] + t.file[bytes..bytes + n] == t.file[..bytes + n];
        content := content + t.file[bytes..bytes + n];
        bytes := bytes + n;
      }
      assert t.file[..|t.file|] == t.file;
      if !readable {
        t := t.(error := Some(Disk));
        return false;
      }
      if p.sha(content) != p.hash {
        var done := ResetFile(r);
        if done {
          t := t.(error := Some(HashMismatch));
        }
        return false;
      }
      ok := true;
    }

    /** publish: the verified file takes the bundle's name; a failed directory sync comes too late to undo it. */
    method Publish(e: Environment) returns (ok: bool)
      requires part == Some(t.file)
      modifies this
      ensures ok ==> bundle == Some(old(t).file)
      ensures t.file == old(t).file
      ensures (bundle == old(bundle) && part == old(part)) || (bundle == Some(old(t).file) && part.None?)
      ensures ok ==> part.None?
      ensures ok <==> e.sameFile && e.synced && e.renamed && e.dirSynced
    {
      if !e.sameFile || !e.synced || !e.renamed {
        t := t.(error := Some(Disk));
        return false;
      }
      bundle, part := part, None;
      ok := e.dirSynced;
      if !ok {
        t := t.(error := Some(Disk));
      }
    }

    /** One GET on a fresh transfer. */
    method Get(a: Attempt, ghost artifact: Option<seq<byte>>) returns (ok: bool)
      requires t == Fresh(t.file, 0, |t.file|, t.expected) && |t.file| <= t.expected && 0 < t.expected <= INT64_MAX
      requires artifact.Some? ==> HonestServer(a, artifact.value)
      modifies this`t
      ensures t.expected == old(t).expected && |t.file| <= t.expected
      ensures (t, ok) == Got(old(t), a)
      ensures artifact.Some? && old(t).file <= artifact.value ==> t.file <= artifact.value
    {
      hide Performed, Sound, Honest;
      var calls := a.calls(t);
      ghost var start := t;
      FreshSound(t.file, t.expected);
      var all := Perform(calls);
      PartialIsBounded(start.file, 0, start.expected, calls);
      ExpectedKept(start, calls);
      if artifact.Some? && start.file <= artifact.value {
        FreshAligned(start.file, start.expected, artifact.value);
        StaysPrefix(start, calls, start.file, artifact.value);
      }
      ok := all && a.transport;
    }

    /** The loop of at most two attempts; `complete` means the file is to be verified. */
    method Fetch(e: Environment, ghost artifact: Option<seq<byte>>) returns (complete: bool)
      requires t == Fresh(t.file, 0, |t.file|, t.expected) && |t.file| <= t.expected && 0 < t.expected <= INT64_MAX
      requires artifact.Some? ==> HonestServer(e.first, artifact.value) && HonestServer(e.second, artifact.value)
      modifies this`t
      ensures t.expected == old(t).expected && |t.file| <= t.expected
      ensures (t, complete) == Fetched(old(t), e)
      ensures artifact.Some? && old(t).file <= artifact.value ==> t.file <= artifact.value
    {
      hide HonestServer, Got;
      var attempt := 0;
      while attempt < 2
        invariant t == Fresh(t.file, 0, |t.file|, t.expected) && |t.file| <= t.expected == old(t).expected
        invariant 0 <= attempt <= 2 && Fetched(old(t), e) == if attempt == 0 then Fetched(t, e) else if attempt == 1 then FetchedAgain(t, e) else (t, false)
        invariant artifact.Some? && old(t).file <= artifact.value ==> t.file <= artifact.value
      {
        var a := if attempt == 0 then e.first else e.second;
        if !a.connected {
          return false;
        }
        var transported := Get(a, artifact);
        if t.error.Some? {
          return false;
        }
        if t.headersDone && t.head.status == 416 {
          if t.action == Verify {
            return true;
          }
          var done := ResetFile(e.reset416);
          if !done || attempt == 1 {
            return false;
          }
          t := Fresh([], 0, 0, t.expected);
          if !a.spaceAfter {
            return false;
          }
        } else {
          return transported && t.headersDone && t.received == t.limit;
        }
        attempt := attempt + 1;
      }
      complete := false;
    }

    /** The partial file is opened, and brought to its full size if the server lets us. */
    method Obtain(p: Promise, e: Environment, ghost artifact: Option<seq<byte>>) returns (complete: bool)
      requires 0 < p.size <= INT64_MAX
      requires artifact.Some? ==> HonestServer(e.first, artifact.value) && HonestServer(e.second, artifact.value)
      modifies this
      ensures bundle == old(bundle)
      ensures if complete then part == Some(t.file) == Obtained(p.size, e, old(part)) && t.expected == p.size
              else Obtained(p.size, e, old(part)).None?
      ensures part.Some? && part != old(part) ==> |part.value| <= p.size
      ensures artifact.Some? && PrefixOf(old(part), artifact.value) ==> PrefixOf(part, artifact.value)
      ensures complete ==> |t.file| <= p.size
    {
      hide HonestServer, Fetched;
      if !e.fileOpen {
        return false;
      }
      if part.None? {
        part := Some([]);
      }
      if !e.locked {
        return false;
      }
      t := Fresh(part.value, 0, |part.value|, p.size);
      if t.partial > t.expected {
        var done := ResetFile(e.resetLarge);
        part := Some(t.file);
        if !done {
          return false;
        }
        t := Fresh([], 0, 0, p.size);
      }
      complete := t.partial == t.expected;
      if !complete {
        if !e.space {
          return;
        }
        complete := Fetch(e, artifact);
        part := Some(t.file);
      }
    }

    /**
     ota_download_bundle: the bundle only ever changes to verified content, and does so exactly if the
     environment lets it; the partial file stays within the promised size, and a prefix of the artifact if
     the server is honest.
     */
    method DownloadBundle(p: Promise, e: Environment, ghost artifact: Option<seq<byte>>) returns (ok: bool)
      requires 0 < p.size <= INT64_MAX
      requires artifact.Some? ==> HonestServer(e.first, artifact.value) && HonestServer(e.second, artifact.value)
      modifies this
      ensures bundle == old(bundle) || (bundle.Some? && Keeps(p, bundle.value))
      ensures ok ==> bundle.Some? && Keeps(p, bundle.value) && part.None?
      ensures ok <==> Succeeds(p, e, old(part), old(bundle))
      ensures ok ==> bundle == if old(bundle).Some? && Keeps(p, old(bundle).value) then old(bundle) else Obtained(p.size, e, old(part))
      ensures part.Some? && part != old(part) ==> |part.value| <= p.size
      ensures artifact.Some? && PrefixOf(old(part), artifact.value) ==> PrefixOf(part, artifact.value)
    {
      hide HonestServer, Obtained, Emptied;
      ok := false;
      if bundle.Some? {
        if !e.bundleReadable {
          return;
        }
        if |bundle.value| == p.size && p.sha(bundle.value) == p.hash {
          var unlinked: bool := *;
          if e.discard || unlinked {
            part := None;
          }
          ok := e.discard;
          return;
        }
      }
      var complete := Obtain(p, e, artifact);
      if complete {
        var verified := VerifyFile(p, e.readable, e.resetMismatch);
        part := Some(t.file);
        if verified {
          ok := Publish(e);
        }
      }
    }

    /** The agent calls again after every retryable failure, for the same attempt. */
    method Calls(p: Promise, environments: seq<Environment>, ghost artifact: Option<seq<byte>>)
      requires 0 < p.size <= INT64_MAX
      requires artifact.Some? ==> forall e <- environments :: HonestServer(e.first, artifact.value) && HonestServer(e.second, artifact.value)
      modifies this
      ensures bundle == old(bundle) || (bundle.Some? && Keeps(p, bundle.value))
      ensures part.Some? && part != old(part) ==> |part.value| <= p.size
      ensures artifact.Some? && PrefixOf(old(part), artifact.value) ==> PrefixOf(part, artifact.value)
    {
      hide HonestServer, Keeps;
      for i := 0 to |environments|
        invariant bundle == old(bundle) || (bundle.Some? && Keeps(p, bundle.value))
        invariant part.Some? && part != old(part) ==> |part.value| <= p.size
        invariant artifact.Some? && PrefixOf(old(part), artifact.value) ==> PrefixOf(part, artifact.value)
      {
        var ok := DownloadBundle(p, environments[i], artifact);
      }
    }
  }

  /** Whatever transfer it meets, the server sends only the artifact's bytes. */
  ghost predicate HonestServer(a: Attempt, artifact: seq<byte>) {
    forall t: Transfer :: Honest(t, a.calls(t), artifact)
  }

  predicate PrefixOf(part: Option<seq<byte>>, artifact: seq<byte>) {
    part.Some? ==> part.value <= artifact
  }

  lemma FreshSound(file: seq<byte>, expected: nat)
    requires |file| <= expected && 0 < expected <= INT64_MAX
    ensures Sound(Fresh(file, 0, |file|, expected), file)
  {
  }

  lemma FreshAligned(file: seq<byte>, expected: nat, artifact: seq<byte>)
    requires file <= artifact
    ensures Aligned(Fresh(file, 0, |file|, expected), artifact)
  {
  }

  lemma CallbackIs(t: Transfer, c: Callback)
    ensures AfterCallback(t, c) == match c
      case Header(text, reset, seekOk) => AfterHeader(t, text, reset, seekOk)
      case Body(data, taken) => AfterBody(t, data, taken)
  {
  }

  lemma WrittenNone(file: seq<byte>, pos: nat)
    ensures WrittenAt(file, pos, []) == file
  {
  }

  lemma WrittenMore(file: seq<byte>, pos: nat, a: seq<byte>, b: seq<byte>)
    ensures WrittenAt(WrittenAt(file, pos, a), pos + |a|, b) == WrittenAt(file, pos, a + b)
  {
    hide WrittenAt;
    if a == [] {
      assert a + b == b && pos + |a| == pos;
      WrittenNone(file, pos);
    } else if b == [] {
      assert a + b == a;
      WrittenNone(WrittenAt(file, pos, a), pos + |a|);
    } else {
      WrittenPadded(file, pos, a);
      WrittenPadded(file, pos, a + b);
      BothWritten(Padded(file, pos), pos, a, b);
    }
  }

  function Padded(file: seq<byte>, pos: nat): (r: seq<byte>)
    ensures |r| >= pos
  {
    if pos <= |file| then file else file + seq(pos - |file|, _ => 0)
  }

  lemma WrittenPadded(file: seq<byte>, pos: nat, data: seq<byte>)
    requires data != []
    ensures WrittenAt(Padded(file, pos), pos, data) == WrittenAt(file, pos, data)
  {
  }

  lemma BothWritten(file: seq<byte>, pos: nat, a: seq<byte>, b: seq<byte>)
    requires pos <= |file| && a != [] && b != []
    ensures WrittenAt(WrittenAt(file, pos, a), pos + |a|, b) == WrittenAt(file, pos, a + b)
  {
    var once, end := WrittenAt(file, pos, a), pos + |a|;
    assert once[..end] == file[..pos] + a;
    var rest := if end + |b| <= |once| then once[end + |b|..] else [];
    assert rest == if end + |b| <= |file| then file[end + |b|..] else [];
    assert (file[..pos] + a) + b == file[..pos] + (a + b);
  }
}
