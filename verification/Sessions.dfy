/** Upload sessions: their value, the completion index, and the object that updates them in place. */
module Sessions {
  import opened Protocol

  /** completed is the set of keys of Go's map[string]bool, which only ever holds true. */
  datatype Session = Session(
    clientIP: string,
    clientVerified: bool,
    lastAccess: int,
    files: map<string, Uuid>,
    metadata: map<string, FileMetadata>,
    progress: map<string, int>,
    completed: set<string>,
    canceled: bool)
  {
    function Touched(now: int): Session {
      this.(lastAccess := now)
    }

    function Reported(fileId: string, bytes: int, now: int): Session {
      if fileId !in progress then this.(lastAccess := now)
      else
        var complete := fileId in metadata && bytes >= metadata[fileId].size;
        this.(progress := progress[fileId := bytes],
              completed := if complete then completed + {fileId} else completed - {fileId},
              lastAccess := now)
    }

    /** The count comparison that the receiver uses. */
    predicate IsCompleted() {
      |completed| == |metadata|
    }

    predicate HasReached(fileId: string)
      requires fileId in metadata && fileId in progress
    {
      progress[fileId] >= metadata[fileId].size
    }

    /** The incremental index agrees with its definition. */
    ghost predicate Indexed() {
      && files.Keys == metadata.Keys
      && progress.Keys == metadata.Keys
      && completed == set id | id in metadata && HasReached(id)
    }

    lemma CompletedMeansAllReached()
      requires Indexed()
      ensures completed <= metadata.Keys
      ensures IsCompleted() <==> forall id :: id in metadata ==> HasReached(id)
    {
      if IsCompleted() {
        SubsetOfEqualSize(completed, metadata.Keys);
      }
      if forall id :: id in metadata ==> HasReached(id) {
        assert completed == metadata.Keys;
      }
    }
  }

  lemma SubsetOfEqualSize<T>(a: set<T>, b: set<T>)
    requires a <= b && |a| == |b|
    ensures a == b
  {
    if a != b {
      var x :| x in b && x !in a;
      assert |b - {x}| < |b|;
      SubsetSize(a, b - {x});
    }
  }

  lemma {:induction false} SubsetSize<T>(a: set<T>, b: set<T>)
    requires a <= b
    ensures |a| <= |b|
  {
    if a != {} {
      var x :| x in a;
      SubsetSize(a - {x}, b - {x});
    }
  }

  function NewSession(clientIP: string, clientVerified: bool, metadata: map<string, FileMetadata>,
                      tokens: map<string, Uuid>, now: int): Session
  {
    Session(clientIP, clientVerified, now, tokens, metadata,
            map id | id in metadata :: 0,
            set id | id in metadata && metadata[id].size == 0,
            false)
  }

  /** Zero-byte files count as complete from the start, files of negative size do not:
      a new session is indexed exactly when no size is negative. */
  lemma NewSessionIndexed(clientIP: string, clientVerified: bool, metadata: map<string, FileMetadata>,
                          tokens: map<string, Uuid>, now: int)
    requires tokens.Keys == metadata.Keys
    ensures NewSession(clientIP, clientVerified, metadata, tokens, now).Indexed()
        <==> forall id :: id in metadata ==> metadata[id].size >= 0
  {
    var s := NewSession(clientIP, clientVerified, metadata, tokens, now);
    assert forall id :: id in metadata ==> (s.HasReached(id) <==> metadata[id].size <= 0);
    if s.Indexed() {
      forall id | id in metadata
        ensures metadata[id].size >= 0
      {
        assert id in s.completed <==> s.HasReached(id);
      }
    }
  }

  // ----- histories of one session -----

  datatype Operation =
    | TouchOp(now: int)
    | ReportOp(fileId: string, bytes: int, now: int)
    | CancelOp

  function Apply(s: Session, op: Operation): Session {
    match op
    case TouchOp(now) => s.Touched(now)
    case ReportOp(fileId, bytes, now) => s.Reported(fileId, bytes, now)
    case CancelOp => s.(canceled := true)
  }

  function ApplyAll(s: Session, ops: seq<Operation>): Session {
    if ops == [] then s else Apply(ApplyAll(s, ops[..|ops| - 1]), ops[|ops| - 1])
  }

  /** The bytes that the last report about the file gave, or 0. */
  function LastReport(ops: seq<Operation>, fileId: string): int {
    if ops == [] then 0 else
    var last := ops[|ops| - 1];
    if last.ReportOp? && last.fileId == fileId then last.bytes else LastReport(ops[..|ops| - 1], fileId)
  }

  lemma ApplyKeepsIndex(s: Session, op: Operation)
    requires s.Indexed()
    ensures Apply(s, op).Indexed()
    ensures Apply(s, op).metadata == s.metadata && Apply(s, op).files == s.files
  {
    var t := Apply(s, op);
    if op.ReportOp? && op.fileId in s.progress {
      assert t.completed == set id | id in t.metadata && t.HasReached(id);
    }
  }

  lemma {:induction false} ApplyAllKeepsIndex(s: Session, ops: seq<Operation>)
    requires s.Indexed() && forall id :: id in s.progress ==> s.progress[id] == 0
    ensures ApplyAll(s, ops).Indexed()
    ensures ApplyAll(s, ops).metadata == s.metadata && ApplyAll(s, ops).files == s.files
    ensures forall id :: id in s.metadata ==> ApplyAll(s, ops).progress[id] == LastReport(ops, id)
  {
    if ops != [] {
      ApplyAllKeepsIndex(s, ops[..|ops| - 1]);
      ApplyKeepsIndex(ApplyAll(s, ops[..|ops| - 1]), ops[|ops| - 1]);
    }
  }

  /** Whatever the history, the count comparison tells whether the last report of every file,
      drops and reports about unknown files included, reached that file's size. */
  lemma CompletionFollowsReports(clientIP: string, clientVerified: bool, metadata: map<string, FileMetadata>,
                                 tokens: map<string, Uuid>, created: int, ops: seq<Operation>)
    requires tokens.Keys == metadata.Keys
    requires forall id :: id in metadata ==> metadata[id].size >= 0
    ensures ApplyAll(NewSession(clientIP, clientVerified, metadata, tokens, created), ops).IsCompleted()
        <==> forall id :: id in metadata ==> LastReport(ops, id) >= metadata[id].size
  {
    var s := NewSession(clientIP, clientVerified, metadata, tokens, created);
    NewSessionIndexed(clientIP, clientVerified, metadata, tokens, created);
    ApplyAllKeepsIndex(s, ops);
    var t := ApplyAll(s, ops);
    t.CompletedMeansAllReached();
    assert forall id :: id in metadata ==> (t.HasReached(id) <==> LastReport(ops, id) >= metadata[id].size);
  }

  // ----- the session object -----

  /** uuid.NewString: never the same identifier twice. */
  class UuidSupply {
    var next: Uuid

    constructor ()
    {
      next := 0;
    }

    method NewString() returns (u: Uuid)
      modifies this
      ensures u == old(next) && next == u + 1
    {
      u := next;
      next := u + 1;
    }
  }

  /** One pass over the announced files: a token and a zero count for each, and the files that need no bytes. */
  method InitialFiles(metadata: map<string, FileMetadata>, uuids: UuidSupply)
    returns (tokens: map<string, Uuid>, zeros: map<string, int>, done: set<string>)
    modifies uuids
    ensures old(uuids.next) <= uuids.next
    ensures tokens.Keys == metadata.Keys
    ensures forall f :: f in tokens ==> old(uuids.next) <= tokens[f] < uuids.next
    ensures forall f, g :: f in tokens && g in tokens && f != g ==> tokens[f] != tokens[g]
    ensures zeros == map f | f in metadata :: 0
    ensures done == set f | f in metadata && metadata[f].size == 0
  {
    tokens, zeros, done := map[], map[], {};
    var rest := metadata.Keys;
    while rest != {}
      invariant rest <= metadata.Keys
      invariant tokens.Keys == metadata.Keys - rest
      invariant zeros.Keys == metadata.Keys - rest
      invariant old(uuids.next) <= uuids.next
      invariant forall f :: f in tokens ==> old(uuids.next) <= tokens[f] < uuids.next
      invariant forall f, g :: f in tokens && g in tokens && f != g ==> tokens[f] != tokens[g]
      invariant forall f :: f in zeros ==> zeros[f] == 0
      invariant forall f :: f in done <==> f in metadata && f !in rest && metadata[f].size == 0
      decreases rest
    {
      var f :| f in rest;
      var token := uuids.NewString();
      tokens := tokens[f := token];
      zeros := zeros[f := 0];
      if metadata[f].size == 0 {
        done := done + {f};
      }
      rest := rest - {f};
    }
  }

  class UploadSession {
    const id: Uuid
    const clientIP: string
    const clientVerified: bool
    const filesMetadata: map<string, FileMetadata>
    var lastAccess: int
    var files: map<string, Uuid>
    var progress: map<string, int>
    var completedFiles: set<string>
    var canceled: bool

    function View(): Session
      reads this
    {
      Session(clientIP, clientVerified, lastAccess, files, filesMetadata, progress, completedFiles, canceled)
    }

    constructor (clientIP: string, clientVerified: bool, filesMetadata: map<string, FileMetadata>,
                 uuids: UuidSupply, now: int)
      modifies uuids
      ensures old(uuids.next) <= id < uuids.next
      ensures forall f :: f in files ==> old(uuids.next) <= files[f] < id
      ensures forall f, g :: f in files && g in files && f != g ==> files[f] != files[g]
      ensures files.Keys == filesMetadata.Keys && this.filesMetadata == filesMetadata
      ensures View() == NewSession(clientIP, clientVerified, filesMetadata, files, now)
    {
      var tokens, zeros, done := InitialFiles(filesMetadata, uuids);
      var u := uuids.NewString();
      this.id, this.clientIP, this.clientVerified, this.filesMetadata := u, clientIP, clientVerified, filesMetadata;
      lastAccess, canceled := now, false;
      files, progress, completedFiles := tokens, zeros, done;
    }

    method Touch(now: int)
      modifies this`lastAccess
      ensures View() == old(View()).Touched(now)
    {
      lastAccess := now;
    }

    method UpdateProgress(fileId: string, bytes: int, now: int)
      modifies this`progress, this`completedFiles, this`lastAccess
      ensures View() == old(View()).Reported(fileId, bytes, now)
    {
      if fileId in progress {
        progress := progress[fileId := bytes];
        if fileId in filesMetadata && bytes >= filesMetadata[fileId].size {
          completedFiles := completedFiles + {fileId};
        } else {
          completedFiles := completedFiles - {fileId};
        }
      }
      lastAccess := now;
    }

    method CancelContext()
      modifies this`canceled
      ensures View() == old(View()).(canceled := true)
    {
      canceled := true;
    }

    method GetFileTokenAndMeta(fileId: string) returns (found: Option<(Uuid, FileMetadata)>)
      ensures found.Some? <==> fileId in files && fileId in filesMetadata
      ensures found.Some? ==> found.value == (files[fileId], filesMetadata[fileId])
    {
      if fileId in files && fileId in filesMetadata {
        found := Some((files[fileId], filesMetadata[fileId]));
      } else {
        found := None;
      }
    }
  }
}
