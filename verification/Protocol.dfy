/** Values that the receiver, the sender and the discovery loops exchange. */
module Protocol {

  datatype Option<+T> = None | Some(value: T)

  newtype Byte = x: int | 0 <= x < 256

  type Bytes = seq<Byte>

  /** Session identifiers and upload tokens; a fresh supply stands for uuid.NewString. */
  type Uuid = nat

  /** The save directory: entry name to contents. */
  type Disk = map<string, Bytes>

  /** SHA-256 followed by hexadecimal rendering; left uninterpreted. */
  type Digest = Bytes -> string

  datatype FileMetadata = FileMetadata(id: string, fileName: string, size: int, sha256: string)

  const STATUS_OK: nat := 200
  const STATUS_NO_CONTENT: nat := 204
  const STATUS_BAD_REQUEST: nat := 400
  const STATUS_UNAUTHORIZED: nat := 401
  const STATUS_FORBIDDEN: nat := 403
  const STATUS_METHOD_NOT_ALLOWED: nat := 405
  const STATUS_CONFLICT: nat := 409
  const STATUS_UNPROCESSABLE: nat := 422
  const STATUS_INTERNAL: nat := 500

  /** The receiver's settings: pin == "" means that no PIN is asked for. */
  datatype Config = Config(pin: string, strictTLS: bool, timeout: int, interval: int, digest: Digest)

  /** A prepare-upload request; cert is the fingerprint of the client certificate, if any,
      and files is None when the body cannot be decoded. */
  datatype PrepareRequest = PrepareRequest(
    isPost: bool,
    pin: string,
    cert: Option<string>,
    remoteIP: string,
    fingerprint: string,
    files: Option<map<string, FileMetadata>>)

  /** What the OnPrepareUpload callback answers; chosen == None is Go's nil map, "all of them". */
  datatype Decision = Decision(accepted: bool, chosen: Option<set<string>>)

  datatype PrepareResponse =
    | Refused(status: nat)
    | Granted(sid: Uuid, tokens: map<string, Uuid>)

  datatype UploadRequest = UploadRequest(
    isPost: bool,
    sid: Uuid,
    fileId: string,
    token: Uuid,
    remoteIP: string,
    cert: Option<string>)

  /** ASCII case folding. A digest is hexadecimal, and no other character folds onto a hexadecimal digit. */
  function FoldChar(c: char): char {
    if 'A' <= c <= 'Z' then c - 'A' + 'a' else c
  }

  predicate EqualFold(a: string, b: string) {
    |a| == |b| && forall i :: 0 <= i < |a| ==> FoldChar(a[i]) == FoldChar(b[i])
  }
}
