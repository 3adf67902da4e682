/**
 Chunked uploads as a machine over process memory and a small directory. Every step is one file
 operation or one critical section; uploads, finalizations, opens, aborts, collections and
 process crashes interleave at that grain, and any write, close or rename may fail. The hash is a
 parameter; blob ids are fresh. What a run has accepted is kept in history fields beside it.
 */
module BlobRuns {
  import opened Text

  type Bytes = seq<int>

  type Hash = Bytes -> string

  datatype Meta = Meta(fileName: string, contentType: string, total: int, sha: string, created: int)

  /** A metadata file: cut short by a crash or a failed write, or whole. */
  datatype MetaFile = Torn | Whole(meta: Meta)

  /** An upload in progress; the rolling hash is represented by what it has hashed. */
  datatype Staged = Staged(meta: Meta, closed: bool, hashed: Bytes, written: int, nextSeq: nat)

  /** How far a Finalize that holds the lock has come. */
  datatype Phase = TruncateMeta | WriteMeta | Rename | Cleanup | Forget

  /**
   Everything about one id: its map entry, its three files, and the history (what Begin declared,
   the chunks Append accepted, the file that was renamed into place).
   */
  datatype Upload = Upload(
    pending: bool, staged: Option<Staged>, sealing: Option<Phase>,
    part: Option<Bytes>, blob: Option<Bytes>, meta: Option<MetaFile>,
    declared: Option<Meta>, chunks: seq<Bytes>, sealedAs: Option<Bytes>)

  const BLANK := Upload(false, None, None, None, None, None, None, [], None)

  /** An Open that is past its check of the map. */
  datatype Reader = Checked(id: string) | HasMeta(id: string, meta: Meta) | HasSize(id: string, meta: Meta) | Gone

  datatype Handed = Handed(id: string, meta: Meta, content: Bytes)

  /** holder is the id whose Finalize holds the lock; handed is what Open has returned. */
  datatype Sys = Sys(uploads: map<string, Upload>, holder: Option<string>, readers: seq<Reader>, handed: seq<Handed>)

  const EMPTY := Sys(map[], None, [], [])

  function At(s: Sys, id: string): Upload {
    if id in s.uploads then s.uploads[id] else BLANK
  }

  function Concat(chunks: seq<Bytes>): Bytes {
    if chunks == [] then [] else Concat(chunks[..|chunks| - 1]) + chunks[|chunks| - 1]
  }

  // ---- steps on one id ----

  /** A failed metadata write may leave a torn file, or the whole text if only the close failed. */
  datatype Op =
    | CreatePart(m: Meta)                                     // Begin: create the staging file
    | Register                                                // Begin: enter it in the map
    | Append(num: nat, data: Bytes, wrote: nat, ok: bool)
    | CloseFile(ok: bool)                                     // Finalize: check, then close
    | MetaStep(ok: bool, landed: bool)                        // Finalize: truncate, then write the metadata
    | RenameStep(ok: bool)
    | CleanupStep(ok: bool)
    | ForgetStep
    | DropStaged                                              // Abort and GC
    | RemovePart(ok: bool)
    | RemoveBlob(ok: bool)
    | RemoveMeta(ok: bool)

  /** The chunk is next in order and fits the declared size. */
  predicate Fits(st: Staged, num: nat, data: Bytes) {
    num == st.nextSeq && st.written + |data| <= st.meta.total
  }

  /** A failed write leaves the first bytes of the chunk in the file and nothing else. */
  function AppendTo(f: Upload, num: nat, data: Bytes, wrote: nat, ok: bool): Upload {
    if f.staged.None? || f.staged.value.closed || !Fits(f.staged.value, num, data) then f
    else
      var st := f.staged.value;
      var n := if wrote < |data| then wrote else |data|;
      var part := if f.part.Some? then Some(f.part.value + data[..n]) else None;
      if ok && n == |data| then
        f.(part := part, chunks := f.chunks + [data],
           staged := Some(st.(hashed := st.hashed + data, written := st.written + |data|, nextSeq := st.nextSeq + 1)))
      else f.(part := part)
  }

  predicate Complete(sha: Hash, st: Staged) {
    st.written == st.meta.total && sha(st.hashed) == st.meta.sha
  }

  function Close(sha: Hash, f: Upload, ok: bool): Upload {
    if f.staged.None? || f.staged.value.closed || !Complete(sha, f.staged.value) then f
    else f.(staged := Some(f.staged.value.(closed := true)), sealing := if ok then Some(TruncateMeta) else None)
  }

  function Seal(f: Upload, op: Op): Upload {
    match (op, f.sealing)
    case (MetaStep(ok, _), Some(TruncateMeta)) =>
      if ok then f.(meta := Some(Torn), sealing := Some(WriteMeta)) else f.(sealing := None)
    case (MetaStep(ok, landed), Some(WriteMeta)) =>
      var whole := if f.staged.Some? then Some(Whole(f.staged.value.meta)) else f.meta;
      if ok && f.staged.Some? then f.(meta := whole, sealing := Some(Rename))
      else f.(meta := if landed then whole else f.meta, sealing := None)
    case (RenameStep(ok), Some(Rename)) =>
      if ok && f.part.Some? then f.(blob := f.part, part := None, sealedAs := f.part, sealing := Some(Forget))
      else f.(sealing := Some(Cleanup))
    case (CleanupStep(ok), Some(Cleanup)) => f.(meta := if ok then None else f.meta, sealing := None)
    case (ForgetStep, Some(Forget)) => f.(staged := None, sealing := None)
    case _ => f
  }

  predicate NeedsLock(op: Op) {
    op.Register? || op.Append? || op.CloseFile? || op.DropStaged?
  }

  function Act(sha: Hash, f: Upload, op: Op): Upload {
    if NeedsLock(op) && f.sealing.Some? then f
    else match op
      case CreatePart(m) =>
        if f.declared.Some? then f else f.(pending := true, part := Some([]), declared := Some(m))
      case Register =>
        if f.pending && f.declared.Some?
        then f.(pending := false, staged := Some(Staged(f.declared.value, false, [], 0, 0))) else f
      case Append(num, data, wrote, ok) => AppendTo(f, num, data, wrote, ok)
      case CloseFile(ok) => Close(sha, f, ok)
      case DropStaged => f.(staged := None)
      case RemovePart(ok) => f.(part := if ok then None else f.part)
      case RemoveBlob(ok) => f.(blob := if ok then None else f.blob)
      case RemoveMeta(ok) => f.(meta := if ok then None else f.meta)
      case _ => Seal(f, op)
  }

  function AfterCrash(f: Upload): Upload {
    f.(pending := false, staged := None, sealing := None)
  }

  // ---- steps of the whole system ----

  datatype Action =
    | On(id: string, op: Op)
    | CheckOpen(id: string)
    | ReadMeta(r: nat)
    | StatBlob(r: nat)
    | OpenBlob(r: nat)
    | Crash

  function ReaderStep(s: Sys, a: Action, r: nat): Sys {
    if r >= |s.readers| then s
    else match (a, s.readers[r])
      case (ReadMeta(_), Checked(id)) =>
        var m := At(s, id).meta;
        s.(readers := s.readers[r := if m.Some? && m.value.Whole? then HasMeta(id, m.value.meta) else Gone])
      case (StatBlob(_), HasMeta(id, m)) =>
        var b := At(s, id).blob;
        s.(readers := s.readers[r := if b.Some? && |b.value| == m.total then HasSize(id, m) else Gone])
      case (OpenBlob(_), HasSize(id, m)) =>
        var b := At(s, id).blob;
        s.(readers := s.readers[r := Gone], handed := if b.Some? then s.handed + [Handed(id, m, b.value)] else s.handed)
      case _ => s
  }

  function Step(sha: Hash, s: Sys, a: Action): Sys {
    match a
    case On(id, op) =>
      if NeedsLock(op) && s.holder.Some? then s
      else
        var f := Act(sha, At(s, id), op);
        s.(uploads := s.uploads[id := f],
           holder := if f.sealing.Some? then Some(id) else if s.holder == Some(id) then None else s.holder)
    case CheckOpen(id) =>
      if s.holder.None? && At(s, id).staged.None? then s.(readers := s.readers + [Checked(id)]) else s
    case ReadMeta(r) => ReaderStep(s, a, r)
    case StatBlob(r) => ReaderStep(s, a, r)
    case OpenBlob(r) => ReaderStep(s, a, r)
    case Crash => Sys(map id | id in s.uploads :: AfterCrash(s.uploads[id]), None, [], s.handed)
  }

  function RunFrom(sha: Hash, s: Sys, acts: seq<Action>): Sys {
    if acts == [] then s else Step(sha, RunFrom(sha, s, acts[..|acts| - 1]), acts[|acts| - 1])
  }

  // ---- the invariant of one id ----

  /** A file holds the accepted bytes and perhaps leftovers of failed writes; if its size is right it has none. */
  predicate Mixed(file: Bytes, accepted: Bytes) {
    |file| >= |accepted| && (|file| == |accepted| ==> file == accepted)
  }

  predicate Finished(sha: Hash, f: Upload) {
    f.declared.Some? && |Concat(f.chunks)| == f.declared.value.total && sha(Concat(f.chunks)) == f.declared.value.sha
  }

  predicate StagedOk(f: Upload) {
    f.staged.Some? ==>
      var st := f.staged.value;
      && f.declared == Some(st.meta)
      && st.hashed == Concat(f.chunks) && st.written == |Concat(f.chunks)| && st.nextSeq == |f.chunks|
  }

  predicate FilesOk(sha: Hash, f: Upload) {
    && (f.part.Some? ==> f.declared.Some? && f.sealedAs.None? && Mixed(f.part.value, Concat(f.chunks)))
    && (f.blob.Some? ==> f.blob == f.sealedAs)
    && (f.sealedAs.Some? ==> Finished(sha, f) && Mixed(f.sealedAs.value, Concat(f.chunks)))
    && (f.meta.Some? && f.meta.value.Whole? ==> f.declared == Some(f.meta.value.meta))
  }

  predicate ControlOk(sha: Hash, f: Upload) {
    && (f.pending ==> f.declared.Some? && f.chunks == [] && f.staged.None? && f.sealedAs.None?)
    && (f.declared.None? ==> f.chunks == [])
    && (f.sealedAs.Some? && f.staged.Some? ==> f.sealing == Some(Forget))
    && (f.sealing.Some? ==> f.staged.Some? && Finished(sha, f))
    && (f.sealing.Some? && f.sealing.value != Forget ==> f.sealedAs.None?)
  }

  predicate Sound(sha: Hash, f: Upload) {
    StagedOk(f) && FilesOk(sha, f) && ControlOk(sha, f)
  }

  /** Declarations never change, and once a file is in place neither it nor its chunks do. */
  predicate Frozen(f: Upload, f': Upload) {
    && (f.declared.Some? ==> f'.declared == f.declared)
    && (f.sealedAs.Some? ==> f'.sealedAs == f.sealedAs && f'.chunks == f.chunks)
  }

  lemma ConcatSnoc(chunks: seq<Bytes>, data: Bytes)
    ensures Concat(chunks + [data]) == Concat(chunks) + data
  {
    assert (chunks + [data])[..|chunks|] == chunks;
  }

  lemma AppendSound(sha: Hash, f: Upload, num: nat, data: Bytes, wrote: nat, ok: bool)
    requires Sound(sha, f) && f.sealing.None?
    ensures Sound(sha, AppendTo(f, num, data, wrote, ok)) && Frozen(f, AppendTo(f, num, data, wrote, ok))
  {
    ConcatSnoc(f.chunks, data);
    assert data[..|data|] == data;
  }

  lemma SealSound(sha: Hash, f: Upload, op: Op)
    requires Sound(sha, f)
    ensures Sound(sha, Seal(f, op)) && Frozen(f, Seal(f, op))
  {
  }

  lemma CloseSound(sha: Hash, f: Upload, ok: bool)
    requires Sound(sha, f) && f.sealing.None?
    ensures Sound(sha, Close(sha, f, ok)) && Frozen(f, Close(sha, f, ok))
  {
  }

  /** Every step on an id keeps its invariant and what is frozen. */
  lemma ActSound(sha: Hash, f: Upload, op: Op)
    requires Sound(sha, f)
    ensures Sound(sha, Act(sha, f, op)) && Frozen(f, Act(sha, f, op))
  {
    if !(NeedsLock(op) && f.sealing.Some?) {
      match op {
        case Append(num, data, wrote, ok) => AppendSound(sha, f, num, data, wrote, ok);
        case CloseFile(ok) => CloseSound(sha, f, ok);
        case Register => assert Concat([]) == [];
        case CreatePart(_) => assert Concat([]) == [];
        case DropStaged =>
        case RemovePart(_) =>
        case RemoveBlob(_) =>
        case RemoveMeta(_) =>
        case _ => SealSound(sha, f, op);
      }
    }
  }

  // ---- the invariant of a run ----

  ghost predicate ReaderOk(s: Sys, r: Reader) {
    && (r.HasMeta? ==> At(s, r.id).declared == Some(r.meta))
    && (r.HasSize? ==> && At(s, r.id).declared == Some(r.meta)
                       && At(s, r.id).sealedAs.Some? && |At(s, r.id).sealedAs.value| == r.meta.total)
  }

  /** What Open handed out is exactly the accepted chunks in order, of the declared length and hash. */
  ghost predicate HandedOk(sha: Hash, s: Sys, h: Handed) {
    var f := At(s, h.id);
    && f.sealedAs.Some? && f.declared == Some(h.meta)
    && h.content == Concat(f.chunks) && |h.content| == h.meta.total && sha(h.content) == h.meta.sha
  }

  ghost predicate Good(sha: Hash, s: Sys) {
    && (forall id :: Sound(sha, At(s, id)))
    && (forall r :: 0 <= r < |s.readers| ==> ReaderOk(s, s.readers[r]))
    && (forall h :: 0 <= h < |s.handed| ==> HandedOk(sha, s, s.handed[h]))
  }

  lemma StepFrozen(sha: Hash, s: Sys, a: Action, id: string)
    requires Sound(sha, At(s, id))
    ensures Sound(sha, At(Step(sha, s, a), id)) && Frozen(At(s, id), At(Step(sha, s, a), id))
  {
    match a {
      case On(id', op) => ActSound(sha, At(s, id), op);
      case _ =>
    }
  }

  /** The step an Open takes keeps the facts about every Open. */
  lemma ReaderStepGood(sha: Hash, s: Sys, a: Action, r: nat)
    requires Good(sha, s)
    ensures Good(sha, ReaderStep(s, a, r))
  {
    var s' := ReaderStep(s, a, r);
    assert forall id :: At(s', id) == At(s, id);
    if r < |s.readers| {
      var id := if s.readers[r].Gone? then "" else s.readers[r].id;
      assert Sound(sha, At(s, id)) && ReaderOk(s, s.readers[r]);
    }
  }

  lemma StepGood(sha: Hash, s: Sys, a: Action)
    requires Good(sha, s)
    ensures Good(sha, Step(sha, s, a))
  {
    var s' := Step(sha, s, a);
    if a.ReadMeta? || a.StatBlob? || a.OpenBlob? {
      ReaderStepGood(sha, s, a, a.r);
    } else {
      forall id ensures Sound(sha, At(s', id)) && Frozen(At(s, id), At(s', id)) {
        StepFrozen(sha, s, a, id);
      }
      forall h | 0 <= h < |s'.handed| ensures HandedOk(sha, s', s'.handed[h]) {
        assert HandedOk(sha, s, s.handed[h]);
      }
      forall r | 0 <= r < |s'.readers| ensures ReaderOk(s', s'.readers[r]) {
        assert r < |s.readers| ==> ReaderOk(s, s.readers[r]);
      }
    }
  }

  lemma {:induction false} RunGood(sha: Hash, acts: seq<Action>)
    ensures Good(sha, RunFrom(sha, EMPTY, acts))
  {
    if acts == [] {
      assert Concat([]) == [];
    } else {
      RunGood(sha, acts[..|acts| - 1]);
      StepGood(sha, RunFrom(sha, EMPTY, acts[..|acts| - 1]), acts[|acts| - 1]);
    }
  }

  /**
   In every run, with crashes and failed or partial writes anywhere, whatever Open returns is
   exactly the in-order concatenation of that upload's accepted chunks, of the declared length
   and hash, under the metadata its Begin declared.
   */
  lemma OpenedIsAccepted(sha: Hash, acts: seq<Action>, n: nat)
    requires n < |RunFrom(sha, EMPTY, acts).handed|
    ensures var s := RunFrom(sha, EMPTY, acts);
            var got := s.handed[n];
            && At(s, got.id).declared == Some(got.meta)
            && got.content == Concat(At(s, got.id).chunks)
            && |got.content| == got.meta.total
            && sha(got.content) == got.meta.sha
  {
    RunGood(sha, acts);
    assert HandedOk(sha, RunFrom(sha, EMPTY, acts), RunFrom(sha, EMPTY, acts).handed[n]);
  }

  // ---- bytes that failed writes leave behind ----

  /** How many bytes a step leaves in the staging file without accepting its chunk. */
  function OpSpills(f: Upload, op: Op): nat {
    if op.Append? && f.sealing.None? && f.staged.Some? && !f.staged.value.closed
       && Fits(f.staged.value, op.num, op.data)
       && (!op.ok || op.wrote < |op.data|)
    then if op.wrote < |op.data| then op.wrote else |op.data|
    else 0
  }

  function Spilled(s: Sys, a: Action, id: string): nat {
    if a.On? && a.id == id && s.holder.None? then OpSpills(At(s, id), a.op) else 0
  }

  /** The bytes a run's failed writes to id have landed. */
  function Leftover(sha: Hash, acts: seq<Action>, id: string): nat {
    if acts == [] then 0
    else
      var before := acts[..|acts| - 1];
      Leftover(sha, before, id) + Spilled(RunFrom(sha, EMPTY, before), acts[|acts| - 1], id)
  }

  /** The staging file, and the file sealed from it, hold the accepted bytes and the leftovers. */
  predicate Holds(f: Upload, n: nat) {
    && (f.part.Some? ==> |f.part.value| == |Concat(f.chunks)| + n)
    && (f.sealedAs.Some? ==> |f.sealedAs.value| == |Concat(f.chunks)| + n)
    && (f.declared.None? ==> n == 0)
    && (f.pending ==> n == 0)
  }

  lemma AppendHolds(f: Upload, num: nat, data: Bytes, wrote: nat, ok: bool, n: nat)
    requires Holds(f, n) && f.sealing.None?
    requires f.staged.Some? ==> f.declared.Some? && !f.pending && f.sealedAs.None?
    ensures Holds(AppendTo(f, num, data, wrote, ok), n + OpSpills(f, Append(num, data, wrote, ok)))
  {
    ConcatSnoc(f.chunks, data);
  }

  lemma ActHolds(sha: Hash, f: Upload, op: Op, n: nat)
    requires Sound(sha, f) && Holds(f, n)
    ensures Holds(Act(sha, f, op), n + OpSpills(f, op))
  {
    if !(NeedsLock(op) && f.sealing.Some?) {
      match op {
        case Append(num, data, wrote, ok) => AppendHolds(f, num, data, wrote, ok, n);
        case CreatePart(_) => assert Concat([]) == [];
        case CloseFile(_) =>
        case Register =>
        case DropStaged =>
        case RemovePart(_) =>
        case RemoveBlob(_) =>
        case RemoveMeta(_) =>
        case _ => SealHolds(f, op, n);
      }
    }
  }

  lemma SealHolds(f: Upload, op: Op, n: nat)
    requires Holds(f, n)
    ensures Holds(Seal(f, op), n)
  {
  }

  lemma StepHolds(sha: Hash, s: Sys, a: Action, id: string, n: nat)
    requires Sound(sha, At(s, id)) && Holds(At(s, id), n)
    ensures Holds(At(Step(sha, s, a), id), n + Spilled(s, a, id))
  {
    if a.On? && a.id == id && !(NeedsLock(a.op) && s.holder.Some?) {
      ActHolds(sha, At(s, id), a.op, n);
      SpilledHere(s, id, a.op);
    } else {
      assert Spilled(s, a, id) == 0;
    }
  }

  lemma SpilledHere(s: Sys, id: string, op: Op)
    requires !(NeedsLock(op) && s.holder.Some?)
    ensures Spilled(s, On(id, op), id) == OpSpills(At(s, id), op)
  {
  }

  lemma {:induction false} RunHolds(sha: Hash, acts: seq<Action>, id: string)
    ensures Holds(At(RunFrom(sha, EMPTY, acts), id), Leftover(sha, acts, id))
  {
    if acts != [] {
      var before := acts[..|acts| - 1];
      RunHolds(sha, before, id);
      RunGood(sha, before);
      StepHolds(sha, RunFrom(sha, EMPTY, before), acts[|acts| - 1], id, Leftover(sha, before, id));
    }
  }

  /**
   A sealed file is longer than declared by just the bytes that failed writes left in it; so it
   passes the size check exactly when there were none, and exactly when it is the accepted chunks.
   */
  lemma SizeCheckIsExact(sha: Hash, acts: seq<Action>, id: string)
    requires At(RunFrom(sha, EMPTY, acts), id).blob.Some?
    ensures var f := At(RunFrom(sha, EMPTY, acts), id);
            && f.declared.Some?
            && |f.blob.value| == f.declared.value.total + Leftover(sha, acts, id)
            && (|f.blob.value| == f.declared.value.total <==> f.blob.value == Concat(f.chunks))
  {
    RunGood(sha, acts);
    RunHolds(sha, acts, id);
    assert Sound(sha, At(RunFrom(sha, EMPTY, acts), id));
  }

  /** The state after an undisturbed Open of id. */
  function Opens(sha: Hash, s: Sys, id: string): Sys {
    var r := |s.readers|;
    Step(sha, Step(sha, Step(sha, Step(sha, s, CheckOpen(id)), ReadMeta(r)), StatBlob(r)), OpenBlob(r))
  }

  /**
   An undisturbed Open hands out the file under its metadata exactly if the upload is not in flight,
   the metadata is whole and the file has the size it tells; otherwise it hands out nothing.
   */
  lemma OpenAlone(sha: Hash, s: Sys, id: string)
    requires s.holder.None?
    ensures var f := At(s, id);
            var readable := f.staged.None? && f.meta.Some? && f.meta.value.Whole? && f.blob.Some?
                            && |f.blob.value| == f.meta.value.meta.total;
            && Opens(sha, s, id).uploads == s.uploads
            && Opens(sha, s, id).handed
               == s.handed + if readable then [Handed(id, f.meta.value.meta, f.blob.value)] else []
  {
    var r := |s.readers|;
    var s1 := Step(sha, s, CheckOpen(id));
    var s2 := Step(sha, s1, ReadMeta(r));
    var s3 := Step(sha, s2, StatBlob(r));
    assert s1.uploads == s.uploads && s2.uploads == s.uploads && s3.uploads == s.uploads;
  }
}
