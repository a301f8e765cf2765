/** Serving one packed file of an archive through an asynchronous file stream. */
module AsarStream {
  import opened Wrappers

  type Byte = b: nat | b < 256

  datatype Phase = Created | Opening | Seeking | Ready | Reading(dest: nat) | Succeeded | Failed

  /** What the file stream answers to a read request. */
  datatype ReadAnswer = Bytes(n: nat) | Pending | Error

  /** The stream's contract: at most `dest` bytes arrive, and none only when the file has ended. */
  predicate ReadCan(file: seq<Byte>, position: nat, dest: nat, n: nat) {
    && n <= dest
    && (n > 0 ==> position + n <= |file|)
    && (n == 0 && dest > 0 ==> position >= |file|)
  }

  /** The part of the wanted slice that the archive really holds. */
  function Slice(file: seq<Byte>, offset: nat, size: nat): seq<Byte> {
    if offset >= |file| then []
    else if offset + size <= |file| then file[offset..offset + size]
    else file[offset..]
  }

  /** Reading the whole slice at once: all of it or nothing. */
  function ReadFileToString(file: seq<Byte>, offset: nat, size: nat): Option<seq<Byte>> {
    var contents := Slice(file, offset, size);
    if |contents| == size then Some(contents) else None
  }

  /** Byte by byte: the slice is what the archive holds from the offset on, up to the size. */
  lemma SliceIs(file: seq<Byte>, offset: nat, size: nat)
    ensures |Slice(file, offset, size)|
         == if offset + size <= |file| then size else if offset < |file| then |file| - offset else 0
    ensures forall i :: 0 <= i < |Slice(file, offset, size)| ==> Slice(file, offset, size)[i] == file[offset + i]
  {}

  /** Reading at once succeeds exactly when the archive holds all the bytes, and gives them. */
  lemma ReadsAllOrNothing(file: seq<Byte>, offset: nat, size: nat)
    ensures ReadFileToString(file, offset, size).Some? <==> size == 0 || offset + size <= |file|
    ensures ReadFileToString(file, offset, size).Some? ==>
              var contents := ReadFileToString(file, offset, size).value;
              |contents| == size && forall i :: 0 <= i < size ==> contents[i] == file[offset + i]
  {
    SliceIs(file, offset, size);
  }

  class URLRequestAsarJob {
    const file: seq<Byte>
    const offset: nat
    const size: nat
    var phase: Phase
    var remainingBytes: int
    var position: nat             // of the file stream
    ghost var delivered: seq<Byte>

    ghost predicate Valid()
      reads this
    {
      && remainingBytes >= 0
      && (phase.Created? ==> delivered == [])
      && (phase.Opening? || phase.Seeking? ==> delivered == [] && remainingBytes == size)
      && (phase.Ready? || phase.Reading? || phase.Succeeded? ==>
            && position == offset + |delivered|
            && |delivered| + remainingBytes == size)
      && (phase.Reading? ==> 0 < phase.dest <= remainingBytes)
      && (phase.Succeeded? ==> delivered == Slice(file, offset, size))
      && delivered <= Slice(file, offset, size)
    }

    constructor (file: seq<Byte>, offset: nat, size: nat)
      ensures Valid() && phase == Created && this.file == file && this.offset == offset && this.size == size
    {
      this.file, this.offset, this.size := file, offset, size;
      phase, remainingBytes, position, delivered := Created, 0, 0, [];
    }

    /** `openAnswer` is the answer of the open request, when it is immediate. */
    method Start(openAnswer: Option<bool>, seekPending: bool)
      requires Valid() && phase.Created?
      modifies this
      ensures Valid()
      ensures phase == if openAnswer.None? then Opening
                       else if openAnswer.value && seekPending then Seeking
                       else Failed
    {
      remainingBytes := size;
      phase := Opening;
      if openAnswer.Some? {
        DidOpen(openAnswer.value, seekPending);
      }
    }

    /** A seek that does not answer later is taken to have failed. */
    method DidOpen(ok: bool, seekPending: bool)
      requires Valid() && phase.Opening?
      modifies this
      ensures Valid() && phase == if ok && seekPending then Seeking else Failed
    {
      if !ok {
        phase := Failed;
        return;
      }
      phase := Seeking;
      if !seekPending {
        DidSeek(-1);
      }
    }

    method DidSeek(result: int)
      requires Valid() && phase.Seeking?
      modifies this
      ensures Valid() && phase == if result == offset then Ready else Failed
    {
      if result != offset {
        phase := Failed;
        return;
      }
      position := result;
      phase := Ready;
    }

    /** No more is asked for than remains. */
    function Wanted(destSize: nat): int
      reads this
    {
      if remainingBytes < destSize then remainingBytes else destSize
    }

    /** A buffer of any size; `answer` is the stream's, when it is asked. */
    method ReadRawData(destSize: nat, answer: ReadAnswer) returns (bytesRead: Option<nat>)
      requires Valid() && phase.Ready?
      requires answer.Bytes? ==> ReadCan(file, position, Wanted(destSize), answer.n)
      modifies this
      ensures Valid()
      ensures bytesRead.Some? ==> phase.Ready? && |delivered| == |old(delivered)| + bytesRead.value
      ensures bytesRead.None? ==> delivered == old(delivered) && position == old(position)
      ensures old(Wanted(destSize)) == 0 ==> bytesRead == Some(0)
      ensures old(Wanted(destSize)) > 0 ==>
                match answer
                case Bytes(n) => bytesRead == Some(n)
                case Pending =>
                  && bytesRead == None
                  && phase == Reading(if old(remainingBytes) < destSize then old(remainingBytes) else destSize)
                case Error => bytesRead == None && phase == Failed
      ensures bytesRead == Some(0) && destSize > 0 ==> delivered == Slice(file, offset, size)
    {
      var dest := destSize;
      if remainingBytes < dest {
        dest := remainingBytes;
      }
      if dest == 0 {
        return Some(0);
      }
      match answer
      case Bytes(n) =>
        Deliver(n, dest);
        return Some(n);
      case Pending =>
        phase := Reading(dest);
        return None;
      case Error =>
        phase := Failed;
        return None;
    }

    /** Bytes enter the caller's buffer and the stream moves on. */
    method Deliver(n: nat, ghost dest: nat)
      requires |delivered| + remainingBytes == size && position == offset + |delivered|
      requires 0 < dest <= remainingBytes && ReadCan(file, position, dest, n)
      requires delivered <= Slice(file, offset, size)
      modifies this`remainingBytes, this`position, this`delivered
      ensures |delivered| == |old(delivered)| + n && old(delivered) <= delivered
      ensures |delivered| + remainingBytes == size && position == offset + |delivered| && remainingBytes >= 0
      ensures delivered <= Slice(file, offset, size)
      ensures n == 0 ==> delivered == Slice(file, offset, size)
    {
      if n > 0 {
        delivered := delivered + file[position..position + n];
        assert delivered == Slice(file, offset, size)[..|delivered|];
      }
      position := position + n;
      remainingBytes := remainingBytes - n;
    }

    /** The answer to a pending read. */
    method DidRead(result: int)
      requires Valid() && phase.Reading?
      requires result >= 0 ==> ReadCan(file, position, phase.dest, result)
      modifies this
      ensures Valid()
      ensures phase == if result > 0 then Ready else if result == 0 then Succeeded else Failed
      ensures old(delivered) <= delivered
      ensures |delivered| == |old(delivered)| + (if result > 0 then result else 0)
    {
      if result >= 0 {
        Deliver(result, phase.dest);
      }
      if result > 0 {
        phase := Ready;
      } else if result == 0 {
        phase := Succeeded;
      } else {
        phase := Failed;
      }
    }
  }

  /** Reading a ready job to its end, with buffers of any size, now at once and now later. Unless a read
      fails, the bytes are those of the whole-slice reader exactly when the archive is not cut short;
      then the whole-slice reader fails, and the job still ends well with what there is. */
  method Drain(job: URLRequestAsarJob) returns (ok: bool)
    requires job.Valid() && job.phase.Ready?
    modifies job
    ensures job.Valid() && (ok <==> !job.phase.Failed?)
    ensures ok ==> job.delivered == Slice(job.file, job.offset, job.size)
    ensures ok ==>
              ReadFileToString(job.file, job.offset, job.size)
              == (if job.size == 0 || job.offset + job.size <= |job.file| then Some(job.delivered) else None)
  {
    while true
      invariant job.Valid() && job.phase.Ready?
      decreases job.remainingBytes
    {
      var dest: nat :| dest > 0;
      var wanted := job.Wanted(dest);
      var available: int := |job.file| - job.position;
      var n: nat := if available <= 0 then 0 else if available < wanted then available else wanted;
      assert ReadCan(job.file, job.position, wanted, n);
      n :| ReadCan(job.file, job.position, wanted, n);
      if * {
        var bytesRead := job.ReadRawData(dest, Bytes(n));
        if bytesRead == Some(0) {
          return true;
        }
      } else if * {
        var bytesRead := job.ReadRawData(dest, Error);
        return bytesRead.Some?;
      } else {
        var bytesRead := job.ReadRawData(dest, Pending);
        if bytesRead.Some? {
          return true;
        }
        if * {
          job.DidRead(-1);
          return false;
        }
        job.DidRead(n);
        if job.phase.Succeeded? {
          return true;
        }
      }
    }
  }
}
