/**
 * The installer's `Error` (src/main.rs:8-14) and its `Display`
 * (src/main.rs:31-41). The wrapped `io::Error`, `json::Error` and
 * `fs_extra::error::Error` values are represented by the text their own
 * `Display` prints; an I/O error also keeps its kind.
 */
module Errors {
  import opened Wrappers

  /** `io::ErrorKind`, reduced to what the installer distinguishes. */
  datatype IoErrorKind = NotFound | OtherKind

  /** An `io::Error`: its kind and the text it displays. */
  datatype IoFailure = IoFailure(kind: IoErrorKind, message: string)

  datatype Error =
    | IoError(io: IoFailure)
    | JsonError(message: string)
    | ConfKeyMissing(key: string)
    | CopyError(message: string)

  /** The configuration file's name (src/main.rs:6). */
  const ConfPath: string := "pref.json"

  const IoPrefix: string := "IO Error: "
  const JsonPrefix: string := "Json Error: "
  const KeyPrefix: string := "Key missing in " + ConfPath + ": \""
  const CopyPrefix: string := "Copy Error: "

  /** Which variant an error is, without its payload. */
  datatype Variant = Io | Json | Key | Copy

  function VariantOf(e: Error): Variant
  {
    match e
    case IoError(_) => Io
    case JsonError(_) => Json
    case ConfKeyMissing(_) => Key
    case CopyError(_) => Copy
  }

  /** The text an error carries: the wrapped error's message, or the missing key. */
  function Payload(e: Error): string
  {
    match e
    case IoError(f) => f.message
    case JsonError(m) => m
    case ConfKeyMissing(k) => k
    case CopyError(m) => m
  }

  /**
   * `err.to_string()`: each variant has its own fixed template, so the first
   * characters of the message tell the variant.
   */
  function Render(e: Error): (r: string)
    ensures IoPrefix <= r <==> e.IoError?
    ensures JsonPrefix <= r <==> e.JsonError?
    ensures KeyPrefix <= r <==> e.ConfKeyMissing?
    ensures CopyPrefix <= r <==> e.CopyError?
  {
    assert IoPrefix[0] == 'I' && JsonPrefix[0] == 'J' && KeyPrefix[0] == 'K' && CopyPrefix[0] == 'C';
    var r := match e
      case IoError(f) => IoPrefix + f.message
      case JsonError(m) => JsonPrefix + m
      case ConfKeyMissing(k) => KeyPrefix + k + "\""
      case CopyError(m) => CopyPrefix + m;
    assert r[0] == match e case IoError(_) => 'I' case JsonError(_) => 'J' case ConfKeyMissing(_) => 'K' case CopyError(_) => 'C';
    r
  }

  /** Reads a rendered message back into its variant and payload. */
  function ParseRendered(r: string): Option<(Variant, string)>
  {
    if IoPrefix <= r then Some((Io, r[|IoPrefix|..]))
    else if JsonPrefix <= r then Some((Json, r[|JsonPrefix|..]))
    else if KeyPrefix <= r && |r| > |KeyPrefix| && r[|r| - 1] == '"' then
      Some((Key, r[|KeyPrefix|..|r| - 1]))
    else if CopyPrefix <= r then Some((Copy, r[|CopyPrefix|..]))
    else None
  }

  /** The message says which error occurred and carries its payload unaltered. */
  lemma ParseRender(e: Error)
    ensures ParseRendered(Render(e)) == Some((VariantOf(e), Payload(e)))
  {
    var r := Render(e);
    match e
    case IoError(f) =>
      assert r[|IoPrefix|..] == f.message;
    case JsonError(m) =>
      assert r[|JsonPrefix|..] == m;
    case ConfKeyMissing(k) =>
      assert r[|KeyPrefix|..|r| - 1] == k;
    case CopyError(m) =>
      assert r[|CopyPrefix|..] == m;
  }

  /** Two errors render alike only if they are the same variant with the same payload. */
  lemma RenderInjective(e1: Error, e2: Error)
    requires Render(e1) == Render(e2)
    ensures VariantOf(e1) == VariantOf(e2) && Payload(e1) == Payload(e2)
  {
    ParseRender(e1);
    ParseRender(e2);
  }

  lemma ExampleMissingKey()
    ensures Render(ConfKeyMissing("gameDir")) == "Key missing in pref.json: \"gameDir\""
  {
    assert KeyPrefix == "Key missing in pref.json: \"";
    assert Render(ConfKeyMissing("gameDir")) == KeyPrefix + "gameDir" + "\"";
  }
}
