// modelcache/download.py and modelcache/store.py: the resumable, hashed model
// download and its verified publication.

module Download {
  import opened Basics
  import Manifests

  // What one request comes to: no response at all, or a status and a body that
  // arrives in chunks and may break off.
  datatype Response = NoConnection | Reply(status: nat, chunks: seq<Bytes>, complete: bool)

  const HTTP_OK := 200
  const HTTP_PARTIAL_CONTENT := 206
  const HTTP_RANGE_NOT_SATISFIABLE := 416

  datatype Attempt = Completed(sha256: Bytes, size: nat) | TransportError | BadStatus(status: nat)

  function Existing(part: Option<Bytes>): Bytes {
    if part.Some? then part.value else []
  }

  predicate Accepted(r: Response) {
    r.Reply? && (r.status == HTTP_OK || r.status == HTTP_PARTIAL_CONTENT)
  }

  // The part file after one attempt: 206 appends, 200 restarts, anything else
  // leaves it alone.
  function PartAfter(part: Option<Bytes>, r: Response): Option<Bytes> {
    if !Accepted(r) then part
    else if r.status == HTTP_PARTIAL_CONTENT then Some(Existing(part) + Manifests.Concat(r.chunks))
    else Some(Manifests.Concat(r.chunks))
  }

  // The body arrived whole.
  predicate Completes(r: Response) {
    Accepted(r) && r.complete
  }

  // A completed attempt reports the digest and size of the whole part file.
  function ResultOf(h: Hash, part: Option<Bytes>, r: Response): Attempt {
    if Completes(r) then
      var bytes := Existing(PartAfter(part, r));
      Completed(h(bytes), |bytes|)
    else if r.NoConnection? || Accepted(r) then TransportError
    else BadStatus(r.status)
  }

  // The part file before, between and after a number of attempts.
  ghost predicate IsRun(parts: seq<Option<Bytes>>, responses: seq<Response>) {
    && |parts| == |responses| + 1
    && forall i :: 0 <= i < |responses| ==> parts[i + 1] == PartAfter(parts[i], responses[i])
  }

  // The marker vouches for the blob beside it.
  predicate Trustworthy(h: Hash, blob: Option<Bytes>, marker: Option<Bytes>) {
    blob.Some? && marker.Some? ==> h(blob.value) == marker.value
  }

  class CacheDir {
    var part: Option<Bytes>
    var blob: Option<Bytes>
    var marker: Option<Bytes>

    constructor ()
      ensures part == None && blob == None && marker == None
    {
      part, blob, marker := None, None, None;
    }

    // _seed_from_existing: `fed` is what the hasher has been given.
    method SeedFromExisting(blockSize: nat) returns (fed: Bytes, size: nat)
      requires blockSize > 0
      ensures fed == Existing(part) && size == |fed|
    {
      fed, size := [], 0;
      if part.None? {
        return;
      }
      var unread := part.value;
      while unread != []
        invariant fed + unread == part.value && size == |fed|
        decreases |unread|
      {
        var n := if blockSize < |unread| then blockSize else |unread|;
        fed := fed + unread[..n];
        size := size + n;
        unread := unread[n..];
      }
    }

    // The body loop: write, hash, count.
    method AppendBody(start: Bytes, count: nat, chunks: seq<Bytes>) returns (fed: Bytes, total: nat)
      requires part == Some(start) && count == |start|
      modifies `part
      ensures fed == start + Manifests.Concat(chunks) && total == |fed|
      ensures part == Some(fed)
    {
      fed, total := start, count;
      assert start + [] == start;
      for i := 0 to |chunks|
        invariant fed == start + Manifests.Concat(chunks[..i])
        invariant part == Some(fed) && total == |fed|
      {
        Manifests.ConcatExtends(chunks, i);
        part := Some(part.value + chunks[i]);
        fed := fed + chunks[i];
        total := total + |chunks[i]|;
      }
      assert chunks[..|chunks|] == chunks;
    }

    // stream_to_part: one attempt.
    method StreamToPart(h: Hash, r: Response, blockSize: nat) returns (a: Attempt)
      requires blockSize > 0
      modifies `part
      ensures part == PartAfter(old(part), r) && a == ResultOf(h, old(part), r)
    {
      var fed, existing := SeedFromExisting(blockSize);
      if r.NoConnection? {
        return TransportError;
      }
      var total;
      if r.status == HTTP_PARTIAL_CONTENT {
        total := existing;
        part := Some(fed);
      } else if r.status == HTTP_OK {
        total := 0;
        fed := [];
        part := Some([]);
      } else {
        return BadStatus(r.status);
      }
      fed, total := AppendBody(fed, total, r.chunks);
      assert [] + Manifests.Concat(r.chunks) == Manifests.Concat(r.chunks);
      if !r.complete {
        return TransportError;
      }
      return Completed(h(fed), total);
    }

    // _fetch_with_retries, given what each request would come to.
    method FetchWithRetries(h: Hash, responses: seq<Response>, maxRetries: nat, blockSize: nat)
      returns (a: Attempt, used: nat, ghost parts: seq<Option<Bytes>>)
      requires blockSize > 0 && |responses| == maxRetries + 1
      modifies `part
      ensures 1 <= used <= maxRetries + 1
      ensures IsRun(parts, responses[..used]) && parts[0] == old(part) && parts[used] == part
      ensures a == ResultOf(h, parts[used - 1], responses[used - 1])
      ensures forall i :: 0 <= i < used - 1 ==> !Completes(responses[i])
      ensures a.Completed? || used == maxRetries + 1
    {
      used, parts := 0, [part];
      while true
        invariant used <= maxRetries
        invariant IsRun(parts, responses[..used]) && parts[0] == old(part) && parts[used] == part
        invariant forall i :: 0 <= i < used ==> !Completes(responses[i])
        decreases maxRetries - used
      {
        a := StreamToPart(h, responses[used], blockSize);
        used, parts := used + 1, parts + [part];
        if a.Completed? || used > maxRetries {
          return;
        }
      }
    }

    // _download_and_verify: publishes exactly when some attempt completes and
    // the part file it leaves is what the manifest promises.
    method DownloadAndVerify(h: Hash, sha256: Bytes, sizeBytes: nat,
                             responses: seq<Response>, maxRetries: nat, blockSize: nat)
      returns (published: bool, used: nat, ghost parts: seq<Option<Bytes>>)
      requires blockSize > 0 && |responses| == maxRetries + 1
      modifies this
      ensures 1 <= used <= maxRetries + 1
      ensures IsRun(parts, responses[..used]) && parts[0] == old(part)
      ensures forall i :: 0 <= i < used - 1 ==> !Completes(responses[i])
      ensures Completes(responses[used - 1]) || used == maxRetries + 1
      ensures var bytes := Existing(parts[used]);
        published <==> Completes(responses[used - 1]) && h(bytes) == sha256 && |bytes| == sizeBytes
      ensures published ==> blob == parts[used] && blob.Some? && marker == Some(sha256) && part == None
      ensures !published ==> blob == old(blob) && marker == old(marker)
      ensures !published ==> part == if Completes(responses[used - 1]) then None else parts[used]
    {
      var a;
      a, used, parts := FetchWithRetries(h, responses, maxRetries, blockSize);
      assert parts[used] == PartAfter(parts[used - 1], responses[..used][used - 1]);
      if !a.Completed? {
        return false, used, parts;
      }
      if a.sha256 != sha256 || a.size != sizeBytes {
        part := None;
        return false, used, parts;
      }
      marker := Some(sha256);
      blob := part;
      part := None;
      return true, used, parts;
    }

    // ensure: a blob whose marker matches is trusted without rehashing.
    method Ensure(h: Hash, sha256: Bytes, sizeBytes: nat,
                  responses: seq<Response>, maxRetries: nat, blockSize: nat)
      returns (path: Option<Bytes>, ghost used: nat, ghost parts: seq<Option<Bytes>>)
      requires blockSize > 0 && |responses| == maxRetries + 1
      modifies this
      ensures used == 0 <==> old(blob.Some? && marker == Some(sha256))
      ensures used > 0 ==>
        && used <= maxRetries + 1 && IsRun(parts, responses[..used]) && parts[0] == old(part)
        && (forall i :: 0 <= i < used - 1 ==> !Completes(responses[i]))
        && (Completes(responses[used - 1]) || used == maxRetries + 1)
        && var bytes := Existing(parts[used]);
           && (path.Some? <==> Completes(responses[used - 1]) && h(bytes) == sha256 && |bytes| == sizeBytes)
           && (path.Some? ==> path == parts[used] && part == None)
           && (path.None? ==> part == if Completes(responses[used - 1]) then None else parts[used])
      ensures old(Trustworthy(h, blob, marker)) ==> Trustworthy(h, blob, marker)
      ensures path.Some? ==> path == blob && marker == Some(sha256)
      ensures path.Some? ==>
        (h(path.value) == sha256 <==> !old(marker == Some(sha256) && !Trustworthy(h, blob, marker)))
      ensures path.None? ==> blob == old(blob) && marker == old(marker)
      ensures old(blob.Some? && marker == Some(sha256)) ==> path == old(blob) && unchanged(this)
    {
      if blob.Some? && marker == Some(sha256) {
        return blob, 0, [];
      }
      var published;
      published, used, parts := DownloadAndVerify(h, sha256, sizeBytes, responses, maxRetries, blockSize);
      path := if published then blob else None;
    }
  }

  // What an answer does, by its status code: 206 appends to what is there, 200
  // starts over, and anything else, or no answer, leaves the part file alone and
  // does not complete.
  lemma AnswersMean(h: Hash, part: Option<Bytes>, status: nat, chunks: seq<Bytes>, complete: bool)
    ensures var r := Reply(status, chunks, complete);
      && (status == 206 ==> PartAfter(part, r) == Some((if part.Some? then part.value else []) + Manifests.Concat(chunks)))
      && (status == 200 ==> PartAfter(part, r) == Some(Manifests.Concat(chunks)))
      && (status != 200 && status != 206 ==> PartAfter(part, r) == part && ResultOf(h, part, r) == BadStatus(status))
      && (Completes(r) <==> complete && (status == 200 || status == 206))
      && (ResultOf(h, part, r).Completed? <==> Completes(r))
    ensures PartAfter(part, NoConnection) == part && ResultOf(h, part, NoConnection) == TransportError
  {
  }

  // ---- Against a server of one blob ----

  // The responses a server of `b` may give (sections 14.2 and 15.3.7 of RFC
  // 9110): 200 carries the blob from the start, 206 only answers a range
  // request and carries the rest; a broken body is a prefix of a whole one.
  ghost predicate FromServer(b: Bytes, part: Option<Bytes>, r: Response) {
    Accepted(r) ==>
      var from := if r.status == HTTP_OK then 0 else |Existing(part)|;
      && (r.status == HTTP_PARTIAL_CONTENT ==> 0 < from < |b|)
      && Manifests.Concat(r.chunks) <= b[from..]
      && (r.complete ==> Manifests.Concat(r.chunks) == b[from..])
  }

  lemma AttemptKeepsPrefix(b: Bytes, part: Option<Bytes>, r: Response)
    requires Existing(part) <= b && FromServer(b, part, r)
    ensures Existing(PartAfter(part, r)) <= b
    ensures Completes(r) ==> PartAfter(part, r) == Some(b)
  {
    if Accepted(r) {
      var from := if r.status == HTTP_OK then 0 else |Existing(part)|;
      assert b == b[..from] + b[from..];
      assert r.status == HTTP_PARTIAL_CONTENT ==> b[..from] == Existing(part);
    }
  }

  // Over any sequence of attempts, broken or not, the part file stays a prefix
  // of the blob, and an attempt that completes leaves all of it.
  lemma {:induction false} PartStaysPrefix(b: Bytes, parts: seq<Option<Bytes>>, responses: seq<Response>, n: nat)
    requires IsRun(parts, responses) && Existing(parts[0]) <= b && n <= |responses|
    requires forall i :: 0 <= i < |responses| ==> FromServer(b, parts[i], responses[i])
    ensures Existing(parts[n]) <= b
    ensures n > 0 && Completes(responses[n - 1]) ==> parts[n] == Some(b)
  {
    if n > 0 {
      PartStaysPrefix(b, parts, responses, n - 1);
      assert parts[n - 1 + 1] == PartAfter(parts[n - 1], responses[n - 1]);
      AttemptKeepsPrefix(b, parts[n - 1], responses[n - 1]);
    }
  }

  // ---- Against a server that never fails ----

  // The whole answer: the blob, the rest of it, or 416 when the range starts
  // at or behind its end (section 15.5.17 of RFC 9110).
  ghost predicate Faultless(b: Bytes, part: Option<Bytes>, r: Response) {
    var from := |Existing(part)|;
    && r.Reply? && r.complete
    && r.status == (if from == 0 then HTTP_OK
                    else if from < |b| then HTTP_PARTIAL_CONTENT
                    else HTTP_RANGE_NOT_SATISFIABLE)
    && (from == 0 || from < |b| ==> Manifests.Concat(r.chunks) == b[from..])
  }

  // A part file that is already the whole blob asks for an empty range.
  lemma {:induction false} CompletePartIsStuck(b: Bytes, parts: seq<Option<Bytes>>, responses: seq<Response>, n: nat)
    requires IsRun(parts, responses) && Existing(parts[0]) == b != [] && n <= |responses|
    requires forall i :: 0 <= i < |responses| ==> Faultless(b, parts[i], responses[i])
    ensures parts[n] == parts[0]
    ensures n < |responses| ==> !Completes(responses[n])
  {
    if n > 0 {
      CompletePartIsStuck(b, parts, responses, n - 1);
      assert parts[n - 1 + 1] == PartAfter(parts[n - 1], responses[n - 1]);
    }
    if n < |responses| {
      assert Faultless(b, parts[n], responses[n]);
    }
  }

  // Resuming a prefix completes, on the first attempt, unless the prefix is
  // already the whole blob: then no number of attempts does.
  lemma ResumeFinishesExactly(b: Bytes, parts: seq<Option<Bytes>>, responses: seq<Response>)
    requires IsRun(parts, responses) && Existing(parts[0]) <= b && responses != []
    requires forall i :: 0 <= i < |responses| ==> Faultless(b, parts[i], responses[i])
    ensures (exists i :: 0 <= i < |responses| && Completes(responses[i]))
       <==> parts[0] == Some([]) || parts[0] != Some(b)
    ensures Completes(responses[0]) ==> parts[1] == Some(b)
  {
    var from := |Existing(parts[0])|;
    assert b == Existing(parts[0]) + b[from..];
    assert Faultless(b, parts[0], responses[0]);
    assert parts[0 + 1] == PartAfter(parts[0], responses[0]);
    if from == 0 {
      assert b == b[0..] && Existing(parts[0]) == [] && Completes(responses[0]);
    } else if from < |b| {
      assert Completes(responses[0]);
    } else {
      assert Existing(parts[0]) == b;
      forall i | 0 <= i < |responses|
        ensures !Completes(responses[i])
      {
        CompletePartIsStuck(b, parts, responses, i);
      }
    }
  }

  // How the whole blob can be left unpublished: the connection breaks after
  // the last byte, and every later request asks for an empty range.
  lemma BreakAfterLastByteIsFinal(b: Bytes, parts: seq<Option<Bytes>>, responses: seq<Response>)
    requires b != [] && IsRun(parts, responses) && responses != [] && parts[0] == None
    requires responses[0] == Reply(HTTP_OK, [b], false)
    requires forall i :: 1 <= i < |responses| ==> Faultless(b, parts[i], responses[i])
    ensures FromServer(b, parts[0], responses[0])
    ensures forall i :: 0 <= i < |responses| ==> !Completes(responses[i])
    ensures parts[|responses|] == Some(b)
  {
    assert Manifests.Concat([b]) == b + Manifests.Concat([]) == b == b[0..];
    assert parts[0 + 1] == PartAfter(parts[0], responses[0]);
    var later := parts[1..];
    assert IsRun(later, responses[1..]) by {
      forall i | 0 <= i < |responses| - 1
        ensures later[i + 1] == PartAfter(later[i], responses[1..][i])
      {
        assert parts[i + 1 + 1] == PartAfter(parts[i + 1], responses[i + 1]);
      }
    }
    forall i | 0 <= i < |responses|
      ensures later[i] == Some(b) && !Completes(responses[i])
    {
      CompletePartIsStuck(b, later, responses[1..], i);
      if i > 0 {
        CompletePartIsStuck(b, later, responses[1..], i - 1);
      }
    }
  }
}

// The cache directory across manifests and crashes: store.py's
// _download_and_verify, one file operation at a time.
module Publication {
  import opened Basics
  import opened Download
  import Manifests

  datatype Phase = Idle | Fetched(sha256: Bytes, size: nat) | Publishing(sha256: Bytes)

  datatype State = State(part: Option<Bytes>, blob: Option<Bytes>, marker: Option<Bytes>, phase: Phase)

  datatype Step = Try(response: Response)                 // one attempt
                | Verify(sha256: Bytes, sizeBytes: nat)   // compare, then write the marker
                | Replace                                 // part.replace(blob)
                | Crash                                   // the process ends

  predicate Enabled(s: State, step: Step) {
    match step
    case Try(_) => s.phase.Idle?
    case Verify(_, _) => s.phase.Fetched?
    case Replace => s.phase.Publishing?
    case Crash => true
  }

  function Do(h: Hash, s: State, step: Step): State {
    match step
    case Try(r) =>
      var a := ResultOf(h, s.part, r);
      s.(part := PartAfter(s.part, r), phase := if a.Completed? then Fetched(a.sha256, a.size) else Idle)
    case Verify(sha256, sizeBytes) =>
      if s.phase == Fetched(sha256, sizeBytes) then s.(marker := Some(sha256), phase := Publishing(sha256))
      else s.(part := None, phase := Idle)
    case Replace => State(None, s.part, s.marker, Idle)
    case Crash => s.(phase := Idle)
  }

  ghost predicate IsRun(h: Hash, run: seq<State>, steps: seq<Step>) {
    && |run| == |steps| + 1
    && run[0] == State(None, None, None, Idle)
    && forall i :: 0 <= i < |steps| ==> Enabled(run[i], steps[i]) && run[i + 1] == Do(h, run[i], steps[i])
  }

  // What the process believes of the part file is so.
  predicate Believes(h: Hash, s: State) {
    && (s.phase.Fetched? ==> s.part.Some? && s.phase == Fetched(h(s.part.value), |s.part.value|))
    && (s.phase.Publishing? ==> s.part.Some? && s.phase.sha256 == h(s.part.value) && s.marker == Some(s.phase.sha256))
  }

  // Outside the two publishing steps, a matching marker means a verified blob.
  predicate Trusted(h: Hash, s: State) {
    s.phase.Publishing? || Trustworthy(h, s.blob, s.marker)
  }

  // The crash that breaks trust: the marker is new, the blob is an older one.
  predicate TornCrash(h: Hash, s: State, step: Step) {
    step.Crash? && s.phase.Publishing? && s.blob.Some? && h(s.blob.value) != s.phase.sha256
  }

  // One step keeps trust unless it is that crash; and that crash loses it.
  lemma StepKeepsTrustExactly(h: Hash, s: State, step: Step)
    requires Enabled(s, step) && Believes(h, s) && Trusted(h, s)
    ensures Believes(h, Do(h, s, step))
    ensures Trusted(h, Do(h, s, step)) <==> !TornCrash(h, s, step)
  {
  }

  lemma {:induction false} RunBelieves(h: Hash, run: seq<State>, steps: seq<Step>, n: nat)
    requires IsRun(h, run, steps) && n <= |steps|
    ensures Believes(h, run[n])
  {
    if n > 0 {
      RunBelieves(h, run, steps, n - 1);
      var s := run[n - 1];
      assert run[n - 1 + 1] == Do(h, s, steps[n - 1]) && Enabled(s, steps[n - 1]);
    }
  }

  // Every blob ever published has the digest written beside it.
  lemma OnlyVerifiedBytesArePublished(h: Hash, run: seq<State>, steps: seq<Step>, n: nat)
    requires IsRun(h, run, steps) && n < |steps| && steps[n] == Replace
    ensures run[n + 1].blob.Some? && run[n + 1].marker == Some(h(run[n + 1].blob.value))
  {
    RunBelieves(h, run, steps, n);
    assert Enabled(run[n], steps[n]) && run[n + 1] == Do(h, run[n], steps[n]);
  }

  lemma {:induction false} TrustUntilTorn(h: Hash, run: seq<State>, steps: seq<Step>, n: nat)
    requires IsRun(h, run, steps) && n <= |steps|
    requires forall i :: 0 <= i < n ==> !TornCrash(h, run[i], steps[i])
    ensures Trusted(h, run[n])
  {
    if n > 0 {
      TrustUntilTorn(h, run, steps, n - 1);
      RunBelieves(h, run, steps, n - 1);
      assert Enabled(run[n - 1], steps[n - 1]) && run[n - 1 + 1] == Do(h, run[n - 1], steps[n - 1]);
      assert !TornCrash(h, run[n - 1], steps[n - 1]);
      StepKeepsTrustExactly(h, run[n - 1], steps[n - 1]);
    }
  }

  // The cache can be trusted throughout a run exactly when the run has no
  // torn crash.
  lemma TrustedExactly(h: Hash, run: seq<State>, steps: seq<Step>)
    requires IsRun(h, run, steps)
    ensures (forall n :: 0 <= n <= |steps| ==> Trusted(h, run[n]))
       <==> (forall i :: 0 <= i < |steps| ==> !TornCrash(h, run[i], steps[i]))
  {
    if i :| 0 <= i < |steps| && TornCrash(h, run[i], steps[i]) {
      assert run[i + 1] == Do(h, run[i], steps[i]);
      RunBelieves(h, run, steps, i);
      assert !Trusted(h, run[i + 1]);
    }
    if forall i :: 0 <= i < |steps| ==> !TornCrash(h, run[i], steps[i]) {
      forall n | 0 <= n <= |steps|
        ensures Trusted(h, run[n])
      {
        TrustUntilTorn(h, run, steps, n);
      }
    }
  }

  // The steps can be taken from s, one after the other, and end in t.
  ghost predicate Leads(h: Hash, s: State, steps: seq<Step>, t: State)
    decreases |steps|
  {
    if steps == [] then s == t
    else Enabled(s, steps[0]) && Leads(h, Do(h, s, steps[0]), steps[1..], t)
  }

  lemma {:induction false} LeadsOn(h: Hash, s: State, steps: seq<Step>, t: State, step: Step)
    requires Leads(h, s, steps, t) && Enabled(t, step)
    ensures Leads(h, s, steps + [step], Do(h, t, step))
    decreases |steps|
  {
    if steps == [] {
      assert [step][1..] == [];
    } else {
      assert (steps + [step])[1..] == steps[1..] + [step];
      LeadsOn(h, Do(h, s, steps[0]), steps[1..], t, step);
    }
  }

  // ---- The retry loop is a run of these steps ----

  function Tries(responses: seq<Response>): (steps: seq<Step>)
    ensures |steps| == |responses| && forall i :: 0 <= i < |steps| ==> steps[i] == Try(responses[i])
  {
    seq(|responses|, i requires 0 <= i < |responses| => Try(responses[i]))
  }

  lemma {:induction false} FailedTriesLead(h: Hash, s: State, parts: seq<Option<Bytes>>, responses: seq<Response>, n: nat)
    requires Download.IsRun(parts, responses) && n <= |responses| && s.phase.Idle? && s.part == parts[0]
    requires forall i :: 0 <= i < n ==> !Completes(responses[i])
    ensures Leads(h, s, Tries(responses[..n]), s.(part := parts[n]))
  {
    if n > 0 {
      FailedTriesLead(h, s, parts, responses, n - 1);
      assert parts[n - 1 + 1] == PartAfter(parts[n - 1], responses[n - 1]);
      LeadsOn(h, s, Tries(responses[..n - 1]), s.(part := parts[n - 1]), Try(responses[n - 1]));
      assert Tries(responses[..n]) == Tries(responses[..n - 1]) + [Try(responses[n - 1])];
    }
  }

  lemma TriesLead(h: Hash, s: State, parts: seq<Option<Bytes>>, responses: seq<Response>)
    requires Download.IsRun(parts, responses) && responses != [] && s.phase.Idle? && s.part == parts[0]
    requires forall i :: 0 <= i < |responses| - 1 ==> !Completes(responses[i])
    ensures var n := |responses|;
      Leads(h, s, Tries(responses), s.(part := parts[n],
        phase := if Completes(responses[n - 1]) then Fetched(h(Existing(parts[n])), |Existing(parts[n])|) else Idle))
  {
    var n := |responses| - 1;
    FailedTriesLead(h, s, parts, responses, n);
    assert parts[n + 1] == PartAfter(parts[n], responses[n]);
    LeadsOn(h, s, Tries(responses[..n]), s.(part := parts[n]), Try(responses[n]));
    assert Tries(responses) == Tries(responses[..n]) + [Try(responses[n])];
  }

  // What _download_and_verify does to the directory is one of these runs,
  // without a crash: the attempts, then the comparison, then the replace.
  method DownloadIsRun(dir: CacheDir, h: Hash, sha256: Bytes, sizeBytes: nat,
                       responses: seq<Response>, maxRetries: nat, blockSize: nat)
    returns (published: bool, ghost steps: seq<Step>)
    requires blockSize > 0 && |responses| == maxRetries + 1
    modifies dir
    ensures Leads(h, old(StateOf(dir)), steps, StateOf(dir))
    ensures Crash !in steps && (published <==> Replace in steps)
  {
    ghost var s := StateOf(dir);
    var used;
    ghost var parts;
    published, used, parts := dir.DownloadAndVerify(h, sha256, sizeBytes, responses, maxRetries, blockSize);
    TriesLead(h, s, parts, responses[..used]);
    steps := Tries(responses[..used]);
    if Completes(responses[used - 1]) {
      ghost var bytes := Existing(parts[used]);
      ghost var t := s.(part := parts[used], phase := Fetched(h(bytes), |bytes|));
      LeadsOn(h, s, steps, t, Verify(sha256, sizeBytes));
      steps := steps + [Verify(sha256, sizeBytes)];
      if published {
        LeadsOn(h, s, steps, Do(h, t, Verify(sha256, sizeBytes)), Replace);
        steps := steps + [Replace];
      }
    }
  }

  function StateOf(dir: CacheDir): State
    reads dir
  {
    State(dir.part, dir.blob, dir.marker, Idle)
  }

  // A crash after the last byte, before or after the marker: the whole blob is
  // in the part file, nothing is published, and against a faultless server no
  // later attempt completes.
  lemma CrashAfterLastByteIsFinal(h: Hash, b: Bytes, verified: bool, parts: seq<Option<Bytes>>, responses: seq<Response>)
    returns (steps: seq<Step>, t: State)
    requires b != [] && Download.IsRun(parts, responses) && parts[0] == Some(b)
    requires forall i :: 0 <= i < |responses| ==> Faultless(b, parts[i], responses[i])
    ensures Leads(h, State(None, None, None, Idle), steps, t)
    ensures steps != [] && steps[0] == Try(Reply(HTTP_OK, [b], true))
    ensures t == State(Some(b), None, if verified then Some(h(b)) else None, Idle)
    ensures forall i :: 0 <= i < |responses| ==> !Completes(responses[i])
  {
    var s := State(None, None, None, Idle);
    FetchingPublishes(h, s, b);
    LeadsOn(h, s, [], s, Fetching(h, b)[0]);
    steps, t := [Fetching(h, b)[0]], Do(h, s, Fetching(h, b)[0]);
    assert [] + steps == steps;
    if verified {
      LeadsOn(h, s, steps, t, Fetching(h, b)[1]);
      steps, t := steps + [Fetching(h, b)[1]], Do(h, t, Fetching(h, b)[1]);
    }
    LeadsOn(h, s, steps, t, Crash);
    steps, t := steps + [Crash], Do(h, t, Crash);
    forall i | 0 <= i < |responses|
      ensures !Completes(responses[i])
    {
      CompletePartIsStuck(b, parts, responses, i);
    }
  }

  function Extended(h: Hash, s: State, steps: seq<Step>): (run: seq<State>)
    ensures |run| == |steps| + 1 && run[0] == s
    ensures forall i :: 0 <= i < |steps| ==> run[i + 1] == Do(h, run[i], steps[i])
    decreases |steps|
  {
    if steps == [] then [s] else [s] + Extended(h, Do(h, s, steps[0]), steps[1..])
  }

  // Fetching one blob and publishing it, up to the crash before the replace.
  function Fetching(h: Hash, b: Bytes): seq<Step> {
    [Try(Reply(HTTP_OK, [b], true)), Verify(h(b), |b|)]
  }

  lemma FetchingPublishes(h: Hash, s: State, b: Bytes)
    requires s.phase.Idle?
    ensures var s' := Do(h, s, Fetching(h, b)[0]);
      && s' == s.(part := Some(b), phase := Fetched(h(b), |b|))
      && Do(h, s', Fetching(h, b)[1]) == s.(part := Some(b), marker := Some(h(b)), phase := Publishing(h(b)))
  {
    assert Manifests.Concat([b]) == b + Manifests.Concat([]) == b;
  }

  // Such a run, for any two blobs with different digests: `a` is published,
  // the update to `b` crashes, and `a` is then trusted as `b`.
  lemma TornUpdateIsTrusted(h: Hash, a: Bytes, b: Bytes)
    requires h(a) != h(b)
    ensures var steps := Fetching(h, a) + [Replace] + Fetching(h, b) + [Crash];
      var run := Extended(h, State(None, None, None, Idle), steps);
      IsRun(h, run, steps) && run[6] == State(Some(b), Some(a), Some(h(b)), Idle)
  {
    var steps := Fetching(h, a) + [Replace] + Fetching(h, b) + [Crash];
    var run := Extended(h, State(None, None, None, Idle), steps);
    FetchingPublishes(h, State(None, None, None, Idle), a);
    assert run[0 + 1] == Do(h, run[0], steps[0]) && run[1 + 1] == Do(h, run[1], steps[1]);
    assert run[2] == State(Some(a), None, Some(h(a)), Publishing(h(a)));
    assert run[2 + 1] == Do(h, run[2], steps[2]) == State(None, Some(a), Some(h(a)), Idle);
    FetchingPublishes(h, run[3], b);
    assert run[3 + 1] == Do(h, run[3], steps[3]) && run[4 + 1] == Do(h, run[4], steps[4]);
    assert run[5] == State(Some(b), Some(a), Some(h(b)), Publishing(h(b)));
    assert run[5 + 1] == Do(h, run[5], steps[5]);
  }
}
