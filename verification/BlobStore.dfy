/**
 The upload store object: the map of uploads in progress and the three kinds of files under its
 root. Whether each file operation succeeds, and how much of a failed write lands, is an argument.
 Every method moves the ghost model by steps of the upload machine and keeps the fields in
 agreement with it, so its results inherit what holds of every run.
 */
module BlobStore {
  import opened Text
  import opened BlobRuns

  const MAX_CHUNK_BYTES := 524288

  /** Exactly what Begin mints: 32 lowercase hex characters. */
  predicate ValidID(id: string) {
    |id| == 32 && forall i :: 0 <= i < |id| ==> '0' <= id[i] <= '9' || 'a' <= id[i] <= 'f'
  }

  function Get<T>(m: map<string, T>, id: string): Option<T> {
    if id in m then Some(m[id]) else None
  }

  datatype AppendAnswer =
    | BadBlobID | ChunkTooBig | AlreadySealed | NotFound | OutOfOrder | TooLarge | WriteFailed
    | Received(written: int)

  /** Which of Finalize's file operations succeed; landed is whether a failed metadata write left its whole text. */
  datatype SealIO = SealIO(close: bool, truncate: bool, write: bool, landed: bool, rename: bool, remove: bool)

  const ALL_OK := SealIO(true, true, true, true, true, true)

  datatype SealAnswer = BadID | Unknown | Incomplete | Checksum | IOFailed | SealedAs(meta: Meta)

  /** The metadata file after a write that failed. */
  function Unwritten(m: Meta, io: SealIO): MetaFile {
    if io.landed then Whole(m) else Torn
  }

  /** Finalize on one id, by how far its file operations get. */
  function SealUpload(sha: Hash, f: Upload, io: SealIO): Upload {
    if f.staged.None? || f.staged.value.closed || !Complete(sha, f.staged.value) then f
    else
      var st := f.staged.value;
      var f1 := f.(staged := Some(st.(closed := true)));
      if !io.close || !io.truncate then f1
      else if !io.write then f1.(meta := Some(Unwritten(st.meta, io)))
      else if !io.rename || f.part.None? then f1.(meta := if io.remove then None else Some(Whole(st.meta)))
      else f.(staged := None, meta := Some(Whole(st.meta)), part := None, blob := f.part, sealedAs := f.part)
  }

  function SealOps(io: SealIO): seq<Op> {
    [CloseFile(io.close), MetaStep(io.truncate, false), MetaStep(io.write, io.landed),
     RenameStep(io.rename), CleanupStep(io.remove), ForgetStep]
  }

  function OnAll(id: string, ops: seq<Op>): seq<Action> {
    seq(|ops|, i requires 0 <= i < |ops| => On(id, ops[i]))
  }

  lemma RunStep(sha: Hash, s: Sys, acts: seq<Action>, a: Action)
    ensures RunFrom(sha, s, acts + [a]) == Step(sha, RunFrom(sha, s, acts), a)
  {
    assert (acts + [a])[..|acts|] == acts;
  }

  function ActAll(sha: Hash, f: Upload, ops: seq<Op>): Upload {
    if ops == [] then f else Act(sha, ActAll(sha, f, ops[..|ops| - 1]), ops[|ops| - 1])
  }

  lemma ActSnoc(sha: Hash, f: Upload, ops: seq<Op>, op: Op)
    ensures ActAll(sha, f, ops + [op]) == Act(sha, ActAll(sha, f, ops), op)
  {
    assert (ops + [op])[..|ops|] == ops;
  }

  /** Steps on one id, started with the lock free, change that id only. */
  function SetUpload(s: Sys, id: string, f: Upload): Sys {
    s.(uploads := s.uploads[id := f], holder := if f.sealing.Some? then Some(id) else None)
  }

  lemma {:induction false} RunOne(sha: Hash, s: Sys, id: string, ops: seq<Op>)
    requires s.holder.None? && ops != []
    requires forall i :: 0 < i < |ops| ==> NeedsLock(ops[i]) ==> ActAll(sha, At(s, id), ops[..i]).sealing.None?
    ensures RunFrom(sha, s, OnAll(id, ops)) == SetUpload(s, id, ActAll(sha, At(s, id), ops))
  {
    var n := |ops| - 1;
    assert OnAll(id, ops) == OnAll(id, ops[..n]) + [On(id, ops[n])];
    RunStep(sha, s, OnAll(id, ops[..n]), On(id, ops[n]));
    if n == 0 {
      assert OnAll(id, ops[..n]) == [];
    } else {
      assert forall i :: 0 < i < n ==> ops[..n][..i] == ops[..i];
      RunOne(sha, s, id, ops[..n]);
      var f := ActAll(sha, At(s, id), ops[..n]);
      assert s.uploads[id := f][id := Act(sha, f, ops[n])] == s.uploads[id := Act(sha, f, ops[n])];
    }
  }

  lemma SealOpsAll(sha: Hash, f: Upload, io: SealIO)
    ensures var ops := SealOps(io);
            var f1 := Act(sha, f, ops[0]);
            var f2 := Act(sha, f1, ops[1]);
            var f3 := Act(sha, f2, ops[2]);
            var f4 := Act(sha, f3, ops[3]);
            ActAll(sha, f, ops) == Act(sha, Act(sha, f4, ops[4]), ops[5])
  {
    var ops := SealOps(io);
    ActSnoc(sha, f, [], ops[0]);
    ActSnoc(sha, f, [ops[0]], ops[1]);
    ActSnoc(sha, f, [ops[0], ops[1]], ops[2]);
    ActSnoc(sha, f, [ops[0], ops[1], ops[2]], ops[3]);
    ActSnoc(sha, f, [ops[0], ops[1], ops[2], ops[3]], ops[4]);
    ActSnoc(sha, f, [ops[0], ops[1], ops[2], ops[3], ops[4]], ops[5]);
    assert [] + [ops[0]] == [ops[0]];
    assert [ops[0]] + [ops[1]] == [ops[0], ops[1]];
    assert [ops[0], ops[1]] + [ops[2]] == [ops[0], ops[1], ops[2]];
    assert [ops[0], ops[1], ops[2]] + [ops[3]] == [ops[0], ops[1], ops[2], ops[3]];
    assert [ops[0], ops[1], ops[2], ops[3]] + [ops[4]] == [ops[0], ops[1], ops[2], ops[3], ops[4]];
    assert [ops[0], ops[1], ops[2], ops[3], ops[4]] + [ops[5]] == ops;
  }

  /** The steps of a Finalize once the metadata is written. */
  lemma SealRename(sha: Hash, f: Upload, io: SealIO)
    requires f.staged.Some? && f.sealing == Some(Rename)
    ensures var f4 := Act(sha, f, RenameStep(io.rename));
            var f6 := Act(sha, Act(sha, f4, CleanupStep(io.remove)), ForgetStep);
            f6 == if !io.rename || f.part.None? then f.(sealing := None, meta := if io.remove then None else f.meta)
                  else f.(sealing := None, staged := None, part := None, blob := f.part, sealedAs := f.part)
  {
  }

  /** The steps of a Finalize once the file is closed. */
  lemma SealRest(sha: Hash, f: Upload, io: SealIO)
    requires f.staged.Some? && f.sealing == Some(TruncateMeta)
    ensures var f2 := Act(sha, f, MetaStep(io.truncate, false));
            var f3 := Act(sha, f2, MetaStep(io.write, io.landed));
            var f4 := Act(sha, f3, RenameStep(io.rename));
            var f6 := Act(sha, Act(sha, f4, CleanupStep(io.remove)), ForgetStep);
            var m := f.staged.value.meta;
            f6 == if !io.truncate then f.(sealing := None)
                  else if !io.write then f.(sealing := None, meta := Some(Unwritten(m, io)))
                  else if !io.rename || f.part.None? then
                    f.(sealing := None, meta := if io.remove then None else Some(Whole(m)))
                  else f.(sealing := None, staged := None, meta := Some(Whole(m)),
                          part := None, blob := f.part, sealedAs := f.part)
  {
    if !io.truncate {
      IdleRest(sha, f.(sealing := None), io);
    } else if !io.write {
      IdleRest(sha, f.(sealing := None, meta := Some(Unwritten(f.staged.value.meta, io))), io);
    } else {
      var f3 := f.(sealing := Some(Rename), meta := Some(Whole(f.staged.value.meta)));
      assert Act(sha, Act(sha, f, MetaStep(io.truncate, false)), MetaStep(io.write, io.landed)) == f3;
      SealRename(sha, f3, io);
    }
  }

  lemma IdleRest(sha: Hash, f: Upload, io: SealIO)
    requires f.sealing.None?
    ensures Act(sha, f, MetaStep(io.truncate, false)) == f && Act(sha, f, MetaStep(io.write, io.landed)) == f
    ensures Act(sha, f, RenameStep(io.rename)) == f && Act(sha, f, CleanupStep(io.remove)) == f
    ensures Act(sha, f, ForgetStep) == f
  {
  }

  /** The six steps of a Finalize come to SealUpload. */
  lemma SealIsOps(sha: Hash, f: Upload, io: SealIO)
    requires f.sealing.None?
    ensures ActAll(sha, f, SealOps(io)) == SealUpload(sha, f, io)
  {
    SealOpsAll(sha, f, io);
    var f1 := Act(sha, f, CloseFile(io.close));
    if f1.sealing.Some? {
      SealRest(sha, f1, io);
    } else {
      IdleRest(sha, f1, io);
    }
  }

  lemma {:induction false} RunKeepsGood(sha: Hash, s: Sys, acts: seq<Action>)
    requires Good(sha, s)
    ensures Good(sha, RunFrom(sha, s, acts))
  {
    if acts != [] {
      RunKeepsGood(sha, s, acts[..|acts| - 1]);
      StepGood(sha, RunFrom(sha, s, acts[..|acts| - 1]), acts[|acts| - 1]);
    }
  }

  lemma SealIsRun(sha: Hash, s: Sys, id: string, io: SealIO)
    requires Good(sha, s) && s.holder.None? && At(s, id).sealing.None?
    ensures var s' := SetUpload(s, id, SealUpload(sha, At(s, id), io));
            s' == RunFrom(sha, s, OnAll(id, SealOps(io))) && Good(sha, s')
  {
    RunOne(sha, s, id, SealOps(io));
    SealIsOps(sha, At(s, id), io);
    RunKeepsGood(sha, s, OnAll(id, SealOps(io)));
  }

  function BeginUpload(f: Upload, m: Meta): Upload {
    f.(part := Some([]), declared := Some(m), staged := Some(Staged(m, false, [], 0, 0)))
  }

  lemma BeginIsOps(sha: Hash, f: Upload, m: Meta)
    requires f.sealing.None? && f.declared.None? && !f.pending
    ensures ActAll(sha, f, [CreatePart(m), Register]) == BeginUpload(f, m)
  {
    ActSnoc(sha, f, [], CreatePart(m));
    ActSnoc(sha, f, [CreatePart(m)], Register);
    assert [] + [CreatePart(m)] == [CreatePart(m)] && [CreatePart(m)] + [Register] == [CreatePart(m), Register];
  }

  lemma BeginIsRun(sha: Hash, s: Sys, id: string, m: Meta)
    requires Good(sha, s) && s.holder.None? && At(s, id).sealing.None? && At(s, id).declared.None? && !At(s, id).pending
    ensures var s' := SetUpload(s, id, BeginUpload(At(s, id), m));
            s' == RunFrom(sha, s, OnAll(id, [CreatePart(m), Register])) && Good(sha, s')
  {
    BeginIsOps(sha, At(s, id), m);
    var first := [CreatePart(m), Register][..1];
    assert first == [CreatePart(m)] && first[..0] == [];
    assert ActAll(sha, At(s, id), first).sealing.None?;
    RunOne(sha, s, id, [CreatePart(m), Register]);
    RunKeepsGood(sha, s, OnAll(id, [CreatePart(m), Register]));
  }

  /** What Abort does to one id: forget it, then remove what can be removed. */
  function AbortOps(rmPart: bool, rmBlob: bool, rmMeta: bool): seq<Op> {
    [DropStaged, RemovePart(rmPart), RemoveBlob(rmBlob), RemoveMeta(rmMeta)]
  }

  function AbortUpload(f: Upload, rmPart: bool, rmBlob: bool, rmMeta: bool): Upload {
    f.(staged := None, part := if rmPart then None else f.part,
       blob := if rmBlob then None else f.blob, meta := if rmMeta then None else f.meta)
  }

  lemma AbortIsOps(sha: Hash, f: Upload, rmPart: bool, rmBlob: bool, rmMeta: bool)
    requires f.sealing.None?
    ensures ActAll(sha, f, AbortOps(rmPart, rmBlob, rmMeta)) == AbortUpload(f, rmPart, rmBlob, rmMeta)
  {
    var ops := AbortOps(rmPart, rmBlob, rmMeta);
    ActSnoc(sha, f, [], ops[0]);
    ActSnoc(sha, f, [ops[0]], ops[1]);
    ActSnoc(sha, f, [ops[0], ops[1]], ops[2]);
    ActSnoc(sha, f, [ops[0], ops[1], ops[2]], ops[3]);
    assert [] + [ops[0]] == [ops[0]];
    assert [ops[0]] + [ops[1]] == [ops[0], ops[1]];
    assert [ops[0], ops[1]] + [ops[2]] == [ops[0], ops[1], ops[2]];
    assert [ops[0], ops[1], ops[2]] + [ops[3]] == ops;
  }

  lemma AbortIsRun(sha: Hash, s: Sys, id: string, rmPart: bool, rmBlob: bool, rmMeta: bool)
    requires Good(sha, s) && s.holder.None? && At(s, id).sealing.None?
    ensures var s' := SetUpload(s, id, AbortUpload(At(s, id), rmPart, rmBlob, rmMeta));
            s' == RunFrom(sha, s, OnAll(id, AbortOps(rmPart, rmBlob, rmMeta))) && Good(sha, s')
  {
    RunOne(sha, s, id, AbortOps(rmPart, rmBlob, rmMeta));
    AbortIsOps(sha, At(s, id), rmPart, rmBlob, rmMeta);
    RunKeepsGood(sha, s, OnAll(id, AbortOps(rmPart, rmBlob, rmMeta)));
  }

  function Written(data: Bytes, wrote: nat): Bytes {
    data[..if wrote < |data| then wrote else |data|]
  }

  /** The upload is open and the chunk is the one after those accepted, within the declared size. */
  predicate Takes(f: Upload, num: nat, data: Bytes) {
    && f.staged.Some? && !f.staged.value.closed
    && num == |f.chunks| && |Concat(f.chunks)| + |data| <= f.staged.value.meta.total
  }

  /** What Append answers, by what has been accepted so far and by how the write goes. */
  predicate AppendMeans(f: Upload, onDisk: bool, num: nat, data: Bytes, goesThrough: bool, answer: AppendAnswer) {
    if |data| > MAX_CHUNK_BYTES then answer == ChunkTooBig
    else if f.staged.None? then answer == if onDisk then AlreadySealed else NotFound
    else if num != |f.chunks| then answer == OutOfOrder
    else if |Concat(f.chunks)| + |data| > f.staged.value.meta.total then answer == TooLarge
    else if f.staged.value.closed || !goesThrough then answer == WriteFailed
    else answer == Received(|Concat(f.chunks + [data])|)
  }

  /** The same, by the counters of the map entry. */
  predicate AppendAnswers(staged: Option<Staged>, onDisk: bool, num: nat, size: nat, goesThrough: bool,
                          answer: AppendAnswer)
  {
    match staged
    case None => answer == if onDisk then AlreadySealed else NotFound
    case Some(st) =>
      if num != st.nextSeq then answer == OutOfOrder
      else if st.written + size > st.meta.total then answer == TooLarge
      else if st.closed || !goesThrough then answer == WriteFailed
      else answer == Received(st.written + size)
  }

  lemma AnswersMean(sha: Hash, f: Upload, onDisk: bool, num: nat, data: Bytes, goesThrough: bool, answer: AppendAnswer)
    requires Sound(sha, f) && |data| <= MAX_CHUNK_BYTES
    requires AppendAnswers(f.staged, onDisk, num, |data|, goesThrough, answer)
    ensures AppendMeans(f, onDisk, num, data, goesThrough, answer)
  {
    ConcatSnoc(f.chunks, data);
  }

  /** An append with the lock free is one step of the machine, on its own upload. */
  lemma AppendIsStep(sha: Hash, s: Sys, id: string, num: nat, data: Bytes, wrote: nat, ioOk: bool)
    requires Good(sha, s) && s.holder.None? && At(s, id).sealing.None?
    ensures var s' := Step(sha, s, On(id, BlobRuns.Append(num, data, wrote, ioOk)));
            var f := At(s, id);
            && s' == SetUpload(s, id, AppendTo(f, num, data, wrote, ioOk)) && Good(sha, s')
            && At(s', id) == AppendTo(f, num, data, wrote, ioOk)
            && At(s', id).chunks == f.chunks + if Takes(f, num, data) && ioOk && wrote >= |data| then [data] else []
  {
    assert Sound(sha, At(s, id));
    StepGood(sha, s, On(id, BlobRuns.Append(num, data, wrote, ioOk)));
    TakesIffFits(sha, At(s, id), num, data);
  }

  lemma MeansReceived(f: Upload, onDisk: bool, num: nat, data: Bytes, goesThrough: bool)
    requires |data| <= MAX_CHUNK_BYTES
    ensures forall answer :: AppendMeans(f, onDisk, num, data, goesThrough, answer) ==>
              (answer.Received? <==> Takes(f, num, data) && goesThrough)
  {
  }

  /** The bytes accepted are the declared ones. */
  predicate AllThere(sha: Hash, f: Upload) {
    && f.staged.Some? && |Concat(f.chunks)| == f.staged.value.meta.total
    && sha(Concat(f.chunks)) == f.staged.value.meta.sha
  }

  /** The upload can be sealed: it is complete, has not been closed, and every file operation it needs succeeds. */
  predicate CanSeal(sha: Hash, f: Upload, io: SealIO) {
    && AllThere(sha, f) && !f.staged.value.closed
    && io.close && io.truncate && io.write && io.rename && f.part.Some?
  }

  /** What Finalize answers; sealed is the metadata of a blob that can be read already. */
  predicate SealMeans(sha: Hash, f: Upload, io: SealIO, sealed: Option<Meta>, answer: SealAnswer) {
    if f.staged.None? then answer == if sealed.Some? then SealedAs(sealed.value) else Unknown
    else if |Concat(f.chunks)| != f.staged.value.meta.total then answer == Incomplete
    else if sha(Concat(f.chunks)) != f.staged.value.meta.sha then answer == Checksum
    else answer == if CanSeal(sha, f, io) then SealedAs(f.staged.value.meta) else IOFailed
  }

  lemma TakesIffFits(sha: Hash, f: Upload, num: nat, data: Bytes)
    requires Sound(sha, f)
    ensures Takes(f, num, data) <==> f.staged.Some? && !f.staged.value.closed && Fits(f.staged.value, num, data)
  {
  }

  /** The store's own data: the map of uploads in progress, and the files by kind. */
  datatype Fields = Fields(open: map<string, Staged>, part: map<string, Bytes>,
                           blob: map<string, Bytes>, metas: map<string, MetaFile>)

  predicate Agrees(d: Fields, f: Upload, id: string) {
    f.sealing.None? && !f.pending && SameFiles(d, f, id)
  }

  predicate SameFiles(d: Fields, f: Upload, id: string) {
    f.staged == Get(d.open, id) && f.part == Get(d.part, id) && f.blob == Get(d.blob, id) && f.meta == Get(d.metas, id)
  }

  predicate SameAt(d: Fields, d': Fields, i: string) {
    && Get(d'.open, i) == Get(d.open, i) && Get(d'.part, i) == Get(d.part, i)
    && Get(d'.blob, i) == Get(d.blob, i) && Get(d'.metas, i) == Get(d.metas, i)
  }

  ghost predicate SameElsewhere(d: Fields, d': Fields, id: string) {
    forall i :: i != id ==> SameAt(d, d', i)
  }

  /** Updating one id leaves the agreement about all others. */
  lemma AgreesElsewhere(d: Fields, s: Sys, d': Fields, id: string, f: Upload)
    requires forall i :: Agrees(d, At(s, i), i)
    requires SameElsewhere(d, d', id) && Agrees(d', f, id)
    ensures forall i :: Agrees(d', At(SetUpload(s, id, f), i), i)
  {
    forall i ensures Agrees(d', At(SetUpload(s, id, f), i), i) {
      if i != id {
        assert Agrees(d, At(s, i), i) && SameAt(d, d', i);
      }
    }
  }

  class Store {
    const sha: Hash
    const maxBytes: int
    var open: map<string, Staged>
    var part: map<string, Bytes>
    var blob: map<string, Bytes>
    var metas: map<string, MetaFile>
    ghost var model: Sys

    /** The fields are the machine's view of every id, between critical sections. */
    ghost predicate Valid()
      reads this
    {
      && model.holder.None? && Good(sha, model)
      && forall id :: Agrees(View(), At(model, id), id)
    }

    function View(): Fields
      reads this
    {
      Fields(open, part, blob, metas)
    }

    constructor (sha: Hash, maxBytes: int)
      ensures Valid() && model == EMPTY && this.sha == sha && this.maxBytes == maxBytes
    {
      this.sha, this.maxBytes := sha, maxBytes;
      open, part, blob, metas := map[], map[], map[], map[];
      model := EMPTY;
      new;
      RunGood(sha, []);
    }

    /** Begin under a fresh id. */
    method Begin(id: string, m: Meta) returns (ok: bool)
      requires Valid()
      requires At(model, id).declared.None?
      modifies this
      ensures Valid()
      ensures ok == (0 < m.total <= maxBytes)
      ensures ok ==> model == RunFrom(sha, old(model), OnAll(id, [CreatePart(m), Register]))
      ensures ok ==> At(model, id).staged == Some(Staged(m, false, [], 0, 0)) && At(model, id).part == Some([])
      ensures ok ==> At(model, id).chunks == [] && At(model, id).declared == Some(m)
      ensures !ok ==> model == old(model)
    {
      if m.total <= 0 || m.total > maxBytes {
        return false;
      }
      assert Agrees(View(), At(model, id), id);
      assert Sound(sha, At(model, id));
      ghost var before := model;
      BeginIsRun(sha, model, id, m);
      model := SetUpload(model, id, BeginUpload(At(model, id), m));
      StageFile(id, m);
      AgreesElsewhere(old(View()), before, View(), id, At(model, id));
      return true;
    }

    method StageFile(id: string, m: Meta)
      modifies `open, `part
      ensures SameElsewhere(old(View()), View(), id)
      ensures open == old(open)[id := Staged(m, false, [], 0, 0)] && part == old(part)[id := []]
    {
      part := part[id := []];
      open := open[id := Staged(m, false, [], 0, 0)];
    }

    /** A chunk is accepted exactly when it is the next in order, fits, and its write goes through. */
    method Append(id: string, num: nat, data: Bytes, wrote: nat, ioOk: bool) returns (answer: AppendAnswer)
      requires Valid()
      modifies this
      ensures Valid()
      ensures model == if ValidID(id) && |data| <= MAX_CHUNK_BYTES
                       then Step(sha, old(model), On(id, BlobRuns.Append(num, data, wrote, ioOk))) else old(model)
      ensures answer.Received? <==>
                && ValidID(id) && |data| <= MAX_CHUNK_BYTES
                && Takes(old(At(model, id)), num, data) && ioOk && wrote >= |data|
      ensures if ValidID(id)
              then AppendMeans(old(At(model, id)), id in old(blob), num, data, ioOk && wrote >= |data|, answer)
              else answer == BadBlobID
      ensures answer == ChunkTooBig <==> ValidID(id) && |data| > 512 * 1024
      ensures At(model, id).chunks == old(At(model, id)).chunks + if answer.Received? then [data] else []
    {
      if !ValidID(id) {
        return BadBlobID;
      }
      if |data| > MAX_CHUNK_BYTES {
        return ChunkTooBig;
      }
      ghost var f := At(model, id);
      AppendIsStep(sha, model, id, num, data, wrote, ioOk);
      assert Sound(sha, f);
      MeansReceived(f, id in blob, num, data, ioOk && wrote >= |data|);
      answer := AppendChecked(id, num, data, wrote, ioOk);
      AnswersMean(sha, f, id in old(blob), num, data, ioOk && wrote >= |data|, answer);
    }

    /** An append of a well-formed id and a chunk that is not too big. */
    method AppendChecked(id: string, num: nat, data: Bytes, wrote: nat, ioOk: bool) returns (answer: AppendAnswer)
      requires Valid() && |data| <= MAX_CHUNK_BYTES
      modifies this
      ensures Valid()
      ensures model == Step(sha, old(model), On(id, BlobRuns.Append(num, data, wrote, ioOk)))
      ensures AppendAnswers(old(At(model, id)).staged, id in old(blob), num, |data|, ioOk && wrote >= |data|, answer)
    {
      ghost var f, before := At(model, id), model;
      assert Agrees(View(), f, id);
      AppendIsStep(sha, model, id, num, data, wrote, ioOk);
      model := SetUpload(model, id, AppendTo(f, num, data, wrote, ioOk));
      answer := AppendLocked(id, num, data, wrote, ioOk, f);
      AgreesElsewhere(old(View()), before, View(), id, At(model, id));
    }

    method AppendLocked(id: string, num: nat, data: Bytes, wrote: nat, ioOk: bool, ghost f: Upload)
      returns (answer: AppendAnswer)
      requires SameFiles(View(), f, id)
      modifies `open, `part
      ensures AppendAnswers(f.staged, id in old(blob), num, |data|, ioOk && wrote >= |data|, answer)
      ensures SameFiles(View(), AppendTo(f, num, data, wrote, ioOk), id)
      ensures SameElsewhere(old(View()), View(), id)
    {
      if id !in open {
        return if id in blob then AlreadySealed else NotFound;
      }
      var st := open[id];
      if num != st.nextSeq {
        return OutOfOrder;
      }
      if st.written + |data| > st.meta.total {
        return TooLarge;
      }
      if st.closed {
        return WriteFailed;
      }
      if id in part {
        part := part[id := part[id] + Written(data, wrote)];
      }
      if !ioOk || wrote < |data| {
        return WriteFailed;
      }
      open := open[id := st.(hashed := st.hashed + data, written := st.written + |data|, nextSeq := st.nextSeq + 1)];
      return Received(st.written + |data|);
    }

    /** readMeta: the metadata, only if the bytes it describes are there in full. */
    function Readable(id: string): Option<Meta>
      reads this
    {
      if id in metas && metas[id].Whole? && id in blob && |blob[id]| == metas[id].meta.total
      then Some(metas[id].meta) else None
    }

    method Finalize(id: string, io: SealIO) returns (answer: SealAnswer)
      requires Valid()
      modifies this
      ensures Valid()
      ensures model == if ValidID(id) then RunFrom(sha, old(model), OnAll(id, SealOps(io))) else old(model)
      ensures ValidID(id) ==> At(model, id) == SealUpload(sha, old(At(model, id)), io)
      ensures answer == BadID <==> !ValidID(id)
      ensures ValidID(id) ==> SealMeans(sha, old(At(model, id)), io, old(Readable(id)), answer)
      ensures answer.SealedAs? <==>
                && ValidID(id)
                && (CanSeal(sha, old(At(model, id)), io) || (id !in old(open) && old(Readable(id)).Some?))
      ensures answer.SealedAs? && old(At(model, id)).staged.Some? ==>
                At(model, id).staged.None? && At(model, id).blob.Some? && At(model, id).blob == old(At(model, id)).part
      ensures answer.SealedAs? ==> At(model, id).declared == Some(answer.meta)
      ensures answer.SealedAs? ==>
                (Readable(id).Some? <==>
                 id !in old(open) || (id in old(part) && |old(part)[id]| == answer.meta.total))
    {
      if !ValidID(id) {
        return BadID;
      }
      ghost var f, before := At(model, id), model;
      assert Agrees(View(), f, id);
      assert Sound(sha, f);
      SealIsRun(sha, model, id, io);
      model := SetUpload(model, id, SealUpload(sha, f, io));
      answer := FinalizeLocked(id, io, f);
      AgreesElsewhere(old(View()), before, View(), id, At(model, id));
    }

    method FinalizeLocked(id: string, io: SealIO, ghost f: Upload) returns (answer: SealAnswer)
      requires SameFiles(View(), f, id)
      requires Sound(sha, f)
      modifies `open, `part, `blob, `metas
      ensures SealMeans(sha, f, io, old(Readable(id)), answer)
      ensures SameFiles(View(), SealUpload(sha, f, io), id)
      ensures SameElsewhere(old(View()), View(), id)
      ensures answer.SealedAs? && f.staged.Some? ==> id !in open && f.part.Some? && Get(blob, id) == f.part
      ensures answer.SealedAs? ==> f.declared == Some(answer.meta)
      ensures SealUpload(sha, f, io).staged.None? && f.staged.Some? ==> answer.SealedAs?
      ensures answer.SealedAs? ==> Get(metas, id) == Some(Whole(answer.meta))
      ensures answer.SealedAs? && f.staged.None? ==> Readable(id).Some?
    {
      if id !in open {
        if Readable(id).Some? {
          return SealedAs(Readable(id).value);
        }
        return Unknown;
      }
      var st := open[id];
      if st.written != st.meta.total {
        return Incomplete;
      }
      if sha(st.hashed) != st.meta.sha {
        return Checksum;
      }
      if st.closed {
        return IOFailed;
      }
      var done := SealFiles(id, io, st, f);
      if !done {
        return IOFailed;
      }
      return SealedAs(st.meta);
    }

    /** The file operations of a Finalize whose checks have passed. */
    method SealFiles(id: string, io: SealIO, st: Staged, ghost f: Upload) returns (done: bool)
      requires SameFiles(View(), f, id)
      requires f.staged == Some(st) && !st.closed && Complete(sha, st)
      modifies `open, `part, `blob, `metas
      ensures SameFiles(View(), SealUpload(sha, f, io), id)
      ensures SameElsewhere(old(View()), View(), id)
      ensures done <==> SealUpload(sha, f, io).staged.None?
    {
      open := open[id := st.(closed := true)];
      if !io.close || !io.truncate {
        return false;
      }
      metas := metas[id := if io.write then Whole(st.meta) else Unwritten(st.meta, io)];
      if !io.write {
        return false;
      }
      ghost var written := View();
      done := RenamePart(id, io);
      ghost var renamed := View();
      if done {
        open := open - {id};
      }
      forall i | i != id ensures SameAt(old(View()), View(), i) {
        assert SameAt(written, renamed, i);
      }
    }

    /** Rename the staging file into place, or take the metadata back. */
    method RenamePart(id: string, io: SealIO) returns (done: bool)
      modifies `part, `blob, `metas
      ensures SameElsewhere(old(View()), View(), id)
      ensures done == (io.rename && id in old(part))
      ensures done ==> Get(blob, id) == old(Get(part, id)) && id !in part && metas == old(metas)
      ensures !done ==> part == old(part) && blob == old(blob)
      ensures !done ==> Get(metas, id) == if io.remove then None else old(Get(metas, id))
    {
      if !io.rename || id !in part {
        if io.remove {
          metas := metas - {id};
        }
        return false;
      }
      blob := blob[id := part[id]];
      part := part - {id};
      return true;
    }

    /** Open hands out exactly the accepted chunks, and does so whenever the sealed file is clean. */
    method Open(id: string) returns (got: Option<(Meta, Bytes)>)
      requires Valid()
      ensures got.Some? <==> ValidID(id) && id !in open && Readable(id).Some?
      ensures got.Some? ==>
                var f := At(model, id);
                && f.declared == Some(got.value.0) && got.value.1 == Concat(f.chunks)
                && |got.value.1| == got.value.0.total && sha(got.value.1) == got.value.0.sha
    {
      if !ValidID(id) || id in open {
        return None;
      }
      assert Agrees(View(), At(model, id), id);
      assert Sound(sha, At(model, id));
      if Readable(id).None? {
        return None;
      }
      return Some((Readable(id).value, blob[id]));
    }

    /** Abort, in flight or sealed; a file that cannot be removed stays. */
    method Abort(id: string, rmPart: bool, rmBlob: bool, rmMeta: bool) returns (found: bool)
      requires Valid()
      modifies this
      ensures Valid()
      ensures found == (ValidID(id) && (id in old(open) || id in old(blob)))
      ensures model == if ValidID(id) then RunFrom(sha, old(model), OnAll(id, AbortOps(rmPart, rmBlob, rmMeta)))
                       else old(model)
      ensures ValidID(id) ==> id !in open
    {
      if !ValidID(id) {
        return false;
      }
      found := id in open || id in blob;
      ghost var before := model;
      assert Agrees(View(), At(model, id), id);
      assert Sound(sha, At(model, id));
      AbortIsRun(sha, model, id, rmPart, rmBlob, rmMeta);
      model := SetUpload(model, id, AbortUpload(At(model, id), rmPart, rmBlob, rmMeta));
      RemoveFiles(id, rmPart, rmBlob, rmMeta);
      AgreesElsewhere(old(View()), before, View(), id, At(model, id));
    }

    method RemoveFiles(id: string, rmPart: bool, rmBlob: bool, rmMeta: bool)
      modifies `open, `part, `blob, `metas
      ensures SameElsewhere(old(View()), View(), id)
      ensures id !in open
      ensures Get(part, id) == if rmPart then None else old(Get(part, id))
      ensures Get(blob, id) == if rmBlob then None else old(Get(blob, id))
      ensures Get(metas, id) == if rmMeta then None else old(Get(metas, id))
    {
      open := open - {id};
      if rmPart {
        part := part - {id};
      }
      if rmBlob {
        blob := blob - {id};
      }
      if rmMeta {
        metas := metas - {id};
      }
    }

    /** A new process: uploads in progress are gone, and staging files are swept except those that resist. */
    method Restart(stuck: set<string>)
      requires Valid()
      modifies this
      ensures Valid() && model.handed == old(model).handed
      ensures open == map[] && blob == old(blob) && metas == old(metas)
      ensures part == old(part) - (old(part).Keys - stuck)
    {
      LoseMemory();
      Sweep(part.Keys - stuck);
    }

    method Sweep(ids: set<string>)
      requires Valid()
      modifies `part, `model
      ensures Valid() && model.handed == old(model).handed && part == old(part) - ids
      decreases |ids|
    {
      if ids == {} {
        assert part - ids == part;
        return;
      }
      var id :| id in ids;
      RemoveOne(id);
      Sweep(ids - {id});
      assert {id} + (ids - {id}) == ids;
    }

    method LoseMemory()
      requires Valid()
      modifies `open, `model
      ensures Valid() && open == map[] && model.handed == old(model).handed
    {
      ghost var before := model;
      StepGood(sha, model, Crash);
      model := Step(sha, model, Crash);
      open := map[];
      forall i ensures Agrees(View(), At(model, i), i) {
        assert Agrees(old(View()), At(before, i), i);
        assert At(model, i) == AfterCrash(At(before, i));
      }
    }

    method RemoveOne(id: string)
      requires Valid()
      modifies `part, `model
      ensures Valid() && part == old(part) - {id} && model.handed == old(model).handed
    {
      ghost var before := model;
      assert Agrees(View(), At(model, id), id);
      StepGood(sha, model, On(id, BlobRuns.RemovePart(true)));
      model := Step(sha, model, On(id, BlobRuns.RemovePart(true)));
      assert model == SetUpload(before, id, At(model, id));
      part := part - {id};
      AgreesElsewhere(old(View()), before, View(), id, At(model, id));
    }
  }

  lemma {:induction false} ConcatLength(chunks: seq<Bytes>, n: nat)
    requires n <= |chunks|
    ensures |Concat(chunks[..n])| <= |Concat(chunks)|
  {
    if n < |chunks| {
      var m := |chunks| - 1;
      ConcatLength(chunks[..m], n);
      assert chunks[..m][..n] == chunks[..n];
    } else {
      assert chunks[..n] == chunks;
    }
  }

  /** An upload in progress whose file holds exactly the chunks cs. */
  predicate Clean(f: Upload, m: Meta, cs: seq<Bytes>) {
    && f.staged.Some? && !f.staged.value.closed && f.sealing.None?
    && f.declared == Some(m) && f.chunks == cs && f.part == Some(Concat(cs))
  }

  lemma AppendClean(sha: Hash, f: Upload, m: Meta, cs: seq<Bytes>, data: Bytes)
    requires Sound(sha, f) && Clean(f, m, cs) && |Concat(cs)| + |data| <= m.total
    ensures Clean(AppendTo(f, |cs|, data, |data|, true), m, cs + [data])
  {
    ConcatSnoc(cs, data);
    assert data[..|data|] == data;
  }

  lemma SealClean(sha: Hash, f: Upload, m: Meta, cs: seq<Bytes>, io: SealIO)
    requires Sound(sha, f) && Clean(f, m, cs) && |Concat(cs)| == m.total && sha(Concat(cs)) == m.sha
    requires io == ALL_OK
    ensures var f' := SealUpload(sha, f, io);
            f'.staged.None? && f'.meta == Some(Whole(m)) && f'.blob == Some(Concat(cs)) && f'.chunks == cs
  {
  }

  /**
   A chunk that is retried after a short write leaves its first attempt in the file behind the chunks
   accepted before it.
   */
  lemma LeftoverStays(sha: Hash, f: Upload, m: Meta, cs: seq<Bytes>, data: Bytes, wrote: nat)
    requires Sound(sha, f) && Clean(f, m, cs) && wrote < |data| && |Concat(cs)| + |data| <= m.total
    ensures var failed := AppendTo(f, |cs|, data, wrote, false);
            var retried := AppendTo(failed, |cs|, data, |data|, true);
            && failed == f.(part := Some(Concat(cs) + data[..wrote]))
            && retried.chunks == cs + [data] && retried.part == Some(Concat(cs) + data[..wrote] + data)
            && retried.staged == AppendTo(f, |cs|, data, |data|, true).staged
  {
    assert data[..|data|] == data;
  }

  /**
   If it was the last chunk, Finalize still seals the longer file, and only the size check of Open
   keeps it from being handed out.
   */
  lemma LeftoverIsSealed(sha: Hash, f: Upload, m: Meta, cs: seq<Bytes>, data: Bytes, wrote: nat)
    requires Sound(sha, f) && Clean(f, m, cs) && 0 < wrote < |data|
    requires |Concat(cs)| + |data| == m.total && sha(Concat(cs) + data) == m.sha
    ensures var retried := AppendTo(AppendTo(f, |cs|, data, wrote, false), |cs|, data, |data|, true);
            var sealed := SealUpload(sha, retried, ALL_OK);
            && retried.chunks == cs + [data] && sealed.staged.None? && sealed.meta == Some(Whole(m))
            && sealed.blob == Some(Concat(cs) + data[..wrote] + data) && |sealed.blob.value| == m.total + wrote
  {
    LeftoverStays(sha, f, m, cs, data, wrote);
  }

  method AppendAll(store: Store, id: string, m: Meta, chunks: seq<Bytes>)
    requires store.Valid() && ValidID(id) && Clean(At(store.model, id), m, [])
    requires |Concat(chunks)| == m.total
    requires forall i :: 0 <= i < |chunks| ==> |chunks[i]| <= MAX_CHUNK_BYTES
    modifies store
    ensures store.Valid() && Clean(At(store.model, id), m, chunks)
  {
    for i := 0 to |chunks|
      invariant store.Valid()
      invariant Clean(At(store.model, id), m, chunks[..i])
    {
      ghost var f := At(store.model, id);
      assert Sound(store.sha, f);
      NextChunk(store.sha, f, m, chunks, i);
      var _ := store.Append(id, i, chunks[i], |chunks[i]|, true);
      assert At(store.model, id) == AppendTo(f, i, chunks[i], |chunks[i]|, true);
    }
    assert chunks[..|chunks|] == chunks;
  }

  lemma NextChunk(sha: Hash, f: Upload, m: Meta, chunks: seq<Bytes>, i: nat)
    requires i < |chunks| && Sound(sha, f) && Clean(f, m, chunks[..i]) && |Concat(chunks)| == m.total
    ensures Clean(AppendTo(f, i, chunks[i], |chunks[i]|, true), m, chunks[..i + 1])
  {
    assert chunks[..i + 1] == chunks[..i] + [chunks[i]];
    ConcatSnoc(chunks[..i], chunks[i]);
    ConcatLength(chunks, i + 1);
    AppendClean(sha, f, m, chunks[..i], chunks[i]);
  }

  /** Upload, finalize, open: with every file operation succeeding, any chunking of the bytes comes back whole. */
  method RoundTrip(store: Store, id: string, m: Meta, chunks: seq<Bytes>)
    returns (sealed: SealAnswer, got: Option<(Meta, Bytes)>)
    requires store.Valid() && ValidID(id) && At(store.model, id).declared.None?
    requires 0 < m.total <= store.maxBytes
    requires |Concat(chunks)| == m.total && store.sha(Concat(chunks)) == m.sha
    requires forall i :: 0 <= i < |chunks| ==> |chunks[i]| <= MAX_CHUNK_BYTES
    modifies store
    ensures store.Valid()
    ensures sealed == SealedAs(m) && got == Some((m, Concat(chunks)))
  {
    var ok := store.Begin(id, m);
    assert Agrees(store.View(), At(store.model, id), id) && Concat([]) == [];
    AppendAll(store, id, m, chunks);
    var io := ALL_OK;
    assert Sound(store.sha, At(store.model, id));
    SealClean(store.sha, At(store.model, id), m, chunks, io);
    sealed := store.Finalize(id, io);
    assert Agrees(store.View(), At(store.model, id), id);
    got := store.Open(id);
  }

  function HexDigit(v: int): char
    requires 0 <= v < 16
  {
    if v < 10 then ('0' as int + v) as char else ('a' as int + v - 10) as char
  }

  predicate IsByteString(raw: Bytes) {
    forall i :: 0 <= i < |raw| ==> 0 <= raw[i] < 256
  }

  /** hex.EncodeToString. */
  function Hex(raw: Bytes): string
    requires IsByteString(raw)
  {
    if raw == [] then "" else [HexDigit(raw[0] / 16), HexDigit(raw[0] % 16)] + Hex(raw[1..])
  }

  lemma {:induction false} HexCharacters(raw: Bytes)
    requires IsByteString(raw)
    ensures |Hex(raw)| == 2 * |raw|
    ensures forall i :: 0 <= i < |Hex(raw)| ==> '0' <= Hex(raw)[i] <= '9' || 'a' <= Hex(raw)[i] <= 'f'
  {
    if raw != [] {
      HexCharacters(raw[1..]);
    }
  }

  /** The ids Begin mints, 16 random bytes in hex, are valid. */
  lemma MintedIsValid(raw: Bytes)
    requires |raw| == 16 && IsByteString(raw)
    ensures ValidID(Hex(raw))
  {
    HexCharacters(raw);
  }

  lemma Nibbles(hi: int, lo: int)
    requires 0 <= hi < 16 && 0 <= lo < 16
    ensures 0 <= hi * 16 + lo < 256 && (hi * 16 + lo) / 16 == hi && (hi * 16 + lo) % 16 == lo
  {
  }

  lemma HexCons(b: int, rest: Bytes)
    requires 0 <= b < 256 && IsByteString(rest)
    ensures Hex([b] + rest) == [HexDigit(b / 16), HexDigit(b % 16)] + Hex(rest)
  {
    var raw := [b] + rest;
    assert raw[0] == b && raw[1..] == rest;
  }

  lemma {:induction false} FromHex(id: string) returns (raw: Bytes)
    requires |id| % 2 == 0 && forall i :: 0 <= i < |id| ==> '0' <= id[i] <= '9' || 'a' <= id[i] <= 'f'
    ensures IsByteString(raw) && Hex(raw) == id && 2 * |raw| == |id|
  {
    if id == "" {
      return [];
    }
    var hi, lo := HexValue(id[0]), HexValue(id[1]);
    var rest := FromHex(id[2..]);
    raw := [hi * 16 + lo] + rest;
    Nibbles(hi, lo);
    HexCons(hi * 16 + lo, rest);
    assert id == [id[0], id[1]] + id[2..];
  }

  function HexValue(c: char): (v: int)
    requires '0' <= c <= '9' || 'a' <= c <= 'f'
    ensures 0 <= v < 16 && HexDigit(v) == c
  {
    if c <= '9' then c as int - '0' as int else c as int - 'a' as int + 10
  }

  /** And only those are. */
  lemma ValidIsMinted(id: string) returns (raw: Bytes)
    requires ValidID(id)
    ensures |raw| == 16 && IsByteString(raw) && Hex(raw) == id
  {
    raw := FromHex(id);
  }
}
