/**
  The resumable HTTP download: bytes are appended to a file that may have been left behind by an
  earlier worker, and the request asks for what is missing (Range, section 14.2 of RFC 9110).
 */
module HttpDownload {
  import opened Wrappers
  import opened FileTree

  // A reply carries a body, and its length if the server announces it.
  datatype Reply = Success(body: Bytes, length: Option<nat>) | Refused

  // honours: the server answers a range request with that range (206, section 15.3.7 of RFC 9110)
  // or refuses an unsatisfiable one (416, section 15.5.17); otherwise it sends everything (200).
  function Answer(resource: Bytes, offset: nat, honours: bool, announces: bool): Reply {
    if offset == 0 || !honours then Success(resource, if announces then Some(|resource|) else None)
    else if offset >= |resource| then Refused
    else Success(resource[offset..], if announces then Some(|resource| - offset) else None)
  }

  // What happens to a worker after its chunks have arrived: the body ends, the connection breaks,
  // the worker is aborted, or a write fails, the last two with part of the next chunk written.
  datatype Fate = EndOfBody | Broken | Aborted(partial: nat) | WriteFailed(partial: nat)

  datatype Status = Downloading | Done | Failed

  // One worker's conditions. Chunk lengths add up to no more than the body.
  datatype Attempt = Attempt(honours: bool, announces: bool, chunks: seq<nat>, fate: Fate)

  function Sum(chunks: seq<nat>): nat {
    if chunks == [] then 0 else Sum(chunks[..|chunks| - 1]) + chunks[|chunks| - 1]
  }

  lemma {:induction false} SumMonotone(chunks: seq<nat>, i: nat)
    requires i <= |chunks|
    ensures Sum(chunks[..i]) <= Sum(chunks)
  {
    if i == |chunks| {
      assert chunks[..i] == chunks;
    } else {
      var front := chunks[..|chunks| - 1];
      assert front[..i] == chunks[..i];
      SumMonotone(front, i);
    }
  }

  predicate Feasible(body: Bytes, a: Attempt) {
    match a.fate
    case EndOfBody => Sum(a.chunks) == |body|
    case Broken => Sum(a.chunks) <= |body|
    case Aborted(n) => Sum(a.chunks) + n <= |body|
    case WriteFailed(n) => Sum(a.chunks) + n <= |body|
  }

  // What is written of the chunk after the last whole one.
  function Partial(fate: Fate): nat {
    match fate case EndOfBody => 0 case Broken => 0 case Aborted(n) => n case WriteFailed(n) => n
  }

  // Bytes of the body that reach the file.
  function Received(a: Attempt): nat {
    Sum(a.chunks) + Partial(a.fate)
  }

  predicate CanHappen(file: Bytes, resource: Bytes, a: Attempt) {
    var reply := Answer(resource, |file|, a.honours, a.announces);
    reply.Success? ==> Feasible(reply.body, a)
  }

  // The file after one worker.
  function After(file: Bytes, resource: Bytes, a: Attempt): Bytes
    requires CanHappen(file, resource, a)
  {
    match Answer(resource, |file|, a.honours, a.announces)
    case Refused => file
    case Success(body, _) => file + body[..Received(a)]
  }

  // The file at the task's path, if any, and what its row says of it.
  datatype Task = Task(file: Option<Bytes>, status: Status, total: nat)

  function Contents(t: Task): Bytes {
    if t.file.Some? then t.file.value else []
  }

  function Ended(fate: Fate): Status {
    match fate
    case EndOfBody => Done
    case Broken => Done
    case Aborted(_) => Downloading
    case WriteFailed(_) => Failed
  }

  // The task after one worker; the total is the announced length, or 0, plus what was there.
  function Served(t: Task, resource: Bytes, a: Attempt): Task
    requires CanHappen(Contents(t), resource, a)
  {
    match Answer(resource, |Contents(t)|, a.honours, a.announces)
    case Refused => t.(status := Failed)
    case Success(body, length) =>
      Task(Some(After(Contents(t), resource, a)), Ended(a.fate),
           (if length.Some? then length.value else 0) + |Contents(t)|)
  }

  class Worker {
    var file: Option<Bytes>
    var status: Status
    var total: nat

    constructor ()
      ensures file == None && status == Downloading && total == 0
    {
      file, status, total := None, Downloading, 0;
    }

    function Snapshot(): Task
      reads this
    {
      Task(file, status, total)
    }

    method Append(bytes: Bytes)
      requires file.Some?
      modifies `file
      ensures file == Some(old(file).value + bytes)
    {
      file := Some(file.value + bytes);
    }

    // download_process_internal against one reply.
    method Download(resource: Bytes, a: Attempt)
      requires CanHappen(Contents(Snapshot()), resource, a)
      modifies this
      ensures Snapshot() == Served(old(Snapshot()), resource, a)
    {
      var offset: nat := 0;
      if file.Some? { offset := |file.value|; }
      status := Downloading;
      var reply := Answer(resource, offset, a.honours, a.announces);
      if reply.Refused? {
        status := Failed;
        return;
      }
      total := (if reply.length.Some? then reply.length.value else 0) + offset;
      if offset == 0 { file := Some([]); }
      ghost var start := file.value;
      Receive(reply.body, a.chunks);
      Stop(reply.body, Sum(a.chunks), a.fate, start);
    }

    // The chunk loop; the byte counter follows the length of the file.
    method Receive(body: Bytes, chunks: seq<nat>)
      requires file.Some? && Sum(chunks) <= |body|
      modifies `file
      ensures file == Some(old(file).value + body[..Sum(chunks)])
    {
      ghost var start := file.value;
      var downloaded := |file.value|;
      var at: nat := 0;
      assert chunks[..0] == [] && start + body[..0] == start;
      for i := 0 to |chunks|
        invariant at == Sum(chunks[..i]) <= |body| && downloaded == |start| + at
        invariant file == Some(start + body[..at]) && downloaded == |file.value|
      {
        assert chunks[..i + 1][..i] == chunks[..i];
        SumMonotone(chunks, i + 1);
        var chunk := body[at..at + chunks[i]];
        NextBytes(start, body, at, chunks[i]);
        Append(chunk);
        downloaded := downloaded + |chunk|;
        at := at + chunks[i];
      }
      assert chunks[..|chunks|] == chunks;
    }

    // How the loop is left: after the body and after a broken connection the task counts as done.
    method Stop(body: Bytes, at: nat, fate: Fate, ghost start: Bytes)
      requires at + Partial(fate) <= |body| && file == Some(start + body[..at]) && status == Downloading
      modifies `file, `status
      ensures file == Some(start + body[..at + Partial(fate)])
      ensures status == Ended(fate)
    {
      NextBytes(start, body, at, Partial(fate));
      match fate {
        case EndOfBody => status := Done;
        case Broken => status := Done;
        case Aborted(n) => Append(body[at..at + n]);
        case WriteFailed(n) =>
          Append(body[at..at + n]);
          status := Failed;
      }
    }
  }

  lemma NextBytes(start: Bytes, body: Bytes, at: nat, n: nat)
    requires at + n <= |body|
    ensures start + body[..at] + body[at..at + n] == start + body[..at + n]
  {
    assert body[..at] + body[at..at + n] == body[..at + n];
  }

  // ---- Any number of workers -----------------------------------------------------------------

  // files[i + 1] is what attempts[i] makes of files[i].
  ghost predicate Run(resource: Bytes, files: seq<Bytes>, attempts: seq<Attempt>) {
    |files| == |attempts| + 1 &&
    forall i {:trigger attempts[i]} :: 0 <= i < |attempts| ==>
      CanHappen(files[i], resource, attempts[i]) && files[i + 1] == After(files[i], resource, attempts[i])
  }

  // A worker on a prefix of the resource leaves a prefix, no shorter.
  lemma AttemptKeepsPrefix(file: Bytes, resource: Bytes, a: Attempt)
    requires file <= resource && CanHappen(file, resource, a) && (a.honours || file == [])
    ensures file <= After(file, resource, a) <= resource
  {
    var reply := Answer(resource, |file|, a.honours, a.announces);
    if reply.Success? {
      assert reply.body == resource[|file|..];
      assert file + resource[|file|..][..Received(a)] == resource[..|file| + Received(a)];
    }
  }

  // After any number of aborts and resumes the file is a prefix of the resource that never shrinks.
  lemma {:induction false} RunKeepsPrefix(resource: Bytes, files: seq<Bytes>, attempts: seq<Attempt>, i: nat)
    requires Run(resource, files, attempts) && i < |files| && files[0] == []
    requires forall a :: a in attempts ==> a.honours
    ensures files[i] <= resource
    ensures i > 0 ==> files[i - 1] <= files[i]
  {
    if i > 0 {
      RunKeepsPrefix(resource, files, attempts, i - 1);
      assert attempts[i - 1] in attempts && files[i - 1 + 1] == files[i];
      AttemptKeepsPrefix(files[i - 1], resource, attempts[i - 1]);
    }
  }

  // The recorded total is the resource's size, from whatever offset the worker starts, exactly when
  // the server announces lengths or nothing is missing.
  lemma TotalIsConstant(t: Task, resource: Bytes, a: Attempt)
    requires Contents(t) <= resource && CanHappen(Contents(t), resource, a) && a.honours
    requires Answer(resource, |Contents(t)|, a.honours, a.announces).Success?
    ensures Served(t, resource, a).total == |resource| <==> a.announces || Contents(t) == resource
  {
  }

  // A body read to its end gives the whole resource exactly when the range was honoured or there
  // was nothing to resume.
  lemma EndOfBodyIsComplete(file: Bytes, resource: Bytes, a: Attempt)
    requires file <= resource && CanHappen(file, resource, a) && a.fate == EndOfBody
    requires Answer(resource, |file|, a.honours, a.announces).Success?
    ensures After(file, resource, a) == resource <==> a.honours || file == [] || resource == []
  {
    var body := Answer(resource, |file|, a.honours, a.announces).body;
    assert body[..Received(a)] == body;
    if a.honours || file == [] {
      assert file + resource[|file|..] == resource;
    } else {
      assert |file + resource| > |resource|;
    }
  }

  // The status tells how the worker ended: failed exactly if it was refused or could not write,
  // downloading exactly if it was aborted, and otherwise done.
  lemma StatusTells(t: Task, resource: Bytes, a: Attempt)
    requires CanHappen(Contents(t), resource, a)
    ensures var refused := a.honours && Contents(t) != [] && |Contents(t)| >= |resource|;
            var status := Served(t, resource, a).status;
            && (status == Failed <==> refused || a.fate.WriteFailed?)
            && (status == Downloading <==> !refused && a.fate.Aborted?)
  {
  }

  // A worker that fetches what is missing to the end leaves the whole resource, marked done, with its
  // size as the total if the server announced lengths.
  lemma FinishedIsDone(t: Task, resource: Bytes, a: Attempt)
    requires Contents(t) <= resource && (Contents(t) == [] || |Contents(t)| < |resource|)
    requires CanHappen(Contents(t), resource, a) && a.honours && a.fate == EndOfBody
    ensures var t' := Served(t, resource, a);
            t'.status == Done && t'.file == Some(resource) && (a.announces ==> t'.total == |resource|)
  {
    EndOfBodyIsComplete(Contents(t), resource, a);
  }

  // A broken connection also ends in `done`: the file is then whole only if nothing was missing.
  lemma BrokenMarkedDone(t: Task, resource: Bytes, a: Attempt)
    requires Contents(t) <= resource && CanHappen(Contents(t), resource, a) && a.honours && a.fate == Broken
    requires Answer(resource, |Contents(t)|, a.honours, a.announces).Success?
    ensures Served(t, resource, a).status == Done
    ensures Contents(Served(t, resource, a)) == resource <==> |Contents(t)| + Sum(a.chunks) == |resource|
  {
    var file := Contents(t);
    assert file + resource[|file|..][..Received(a)] == resource[..|file| + Received(a)];
  }

  // Resuming a finished file marks the download as failed and leaves the file whole; with an empty
  // resource the whole of it is sent again.
  lemma CompleteIsRefused(t: Task, resource: Bytes, a: Attempt)
    requires Contents(t) == resource && CanHappen(resource, resource, a) && a.honours
    ensures resource != [] ==> Served(t, resource, a) == t.(status := Failed)
    ensures resource == [] ==> Served(t, resource, a).status == Ended(a.fate)
    ensures Contents(Served(t, resource, a)) == resource
  {
    if resource == [] { assert After(resource, resource, a) == []; }
  }
}
