/**
 * The error taxonomy every operation of the mount returns: a remote-request
 * failure, a failure while streaming an object body, or a local I/O failure.
 * The payloads of the foreign error types are kept opaque: each carries only
 * the text its own `Display` would print.
 */
module S3Error {
  import opened Prelude

  /** The `io::ErrorKind`s the model produces. */
  datatype IoErrorKind = InvalidInput | NotFound | AlreadyExists | IsADirectory | NotADirectory

  datatype IoError = IoError(kind: IoErrorKind, message: string)

  /** The remote operation whose error type instantiates `SdkError<E, R>`. */
  datatype RemoteOp = OpGetObject | OpPutObject | OpListObjectsV2

  datatype SdkError = SdkError(op: RemoteOp, message: string)

  datatype ByteStreamError = ByteStreamError(message: string)

  /** `S3FilesystemError`: exactly one of three variants. */
  datatype S3FilesystemError =
    | S3(sdk: SdkError)
    | ByteStream(stream: ByteStreamError)
    | Io(io: IoError)

  /** Names the variant of an error, for statements about the taxonomy. */
  datatype Variant = S3Variant | ByteStreamVariant | IoVariant

  function VariantOf(e: S3FilesystemError): Variant
  {
    match e
    case S3(_) => S3Variant
    case ByteStream(_) => ByteStreamVariant
    case Io(_) => IoVariant
  }

  /** `From<io::Error>`: the `Io` variant carrying the very error given. */
  function FromIo(err: IoError): (r: S3FilesystemError)
    ensures r.Io? && r.io == err
    ensures VariantOf(r) == IoVariant
  {
    Io(err)
  }

  /** `From<SdkError<E, R>>`: the `S3` variant carrying the very error given. */
  function FromSdk(err: SdkError): (r: S3FilesystemError)
    ensures r.S3? && r.sdk == err
    ensures VariantOf(r) == S3Variant
  {
    S3(err)
  }

  /** `From<ByteStreamError>`: the `ByteStream` variant carrying the very error given. */
  function FromByteStream(err: ByteStreamError): (r: S3FilesystemError)
    ensures r.ByteStream? && r.stream == err
    ensures VariantOf(r) == ByteStreamVariant
  {
    ByteStream(err)
  }

  /** Every error is exactly one of the three variants. */
  lemma VariantsExhaustiveAndDisjoint(e: S3FilesystemError)
    ensures e.S3? || e.ByteStream? || e.Io?
    ensures !(e.S3? && e.ByteStream?) && !(e.S3? && e.Io?) && !(e.ByteStream? && e.Io?)
    ensures e.S3? <==> VariantOf(e) == S3Variant
    ensures e.ByteStream? <==> VariantOf(e) == ByteStreamVariant
    ensures e.Io? <==> VariantOf(e) == IoVariant
  {
  }

  /** The three conversions never collide and never lose their argument. */
  lemma ConversionsInjective(a: IoError, b: SdkError, c: ByteStreamError,
                             a': IoError, b': SdkError, c': ByteStreamError)
    ensures FromIo(a) != FromSdk(b) && FromIo(a) != FromByteStream(c) && FromSdk(b) != FromByteStream(c)
    ensures FromIo(a) == FromIo(a') ==> a == a'
    ensures FromSdk(b) == FromSdk(b') ==> b == b'
    ensures FromByteStream(c) == FromByteStream(c') ==> c == c'
  {
  }

  const S3Prefix: string := "S3 Error: "
  const IoPrefix: string := "IO Error: "
  const ByteStreamPrefix: string := "ByteStream error: "

  function Prefix(v: Variant): string
  {
    match v
    case S3Variant => S3Prefix
    case ByteStreamVariant => ByteStreamPrefix
    case IoVariant => IoPrefix
  }

  /** The text of the carried foreign error (its own `Display`, kept opaque). */
  function InnerText(e: S3FilesystemError): string
  {
    match e
    case S3(err) => err.message
    case ByteStream(err) => err.message
    case Io(err) => err.message
  }

  /** `Display`: a fixed prefix naming the variant, then the inner error's text. */
  function Display(e: S3FilesystemError): (s: string)
    ensures StartsWith(s, Prefix(VariantOf(e)))
    ensures s[|Prefix(VariantOf(e))|..] == InnerText(e)
  {
    match e
    case S3(err) => S3Prefix + err.message
    case Io(err) => IoPrefix + err.message
    case ByteStream(err) => ByteStreamPrefix + err.message
  }

  predicate StartsWith(s: string, p: string)
  {
    |p| <= |s| && s[..|p|] == p
  }

  /** Reads a displayed error back: which prefix it starts with, and what follows. */
  function ParseDisplay(s: string): (r: Option<(Variant, string)>)
    ensures r.Some? ==> Prefix(r.value.0) + r.value.1 == s
  {
    if StartsWith(s, S3Prefix) then Some((S3Variant, s[|S3Prefix|..]))
    else if StartsWith(s, IoPrefix) then Some((IoVariant, s[|IoPrefix|..]))
    else if StartsWith(s, ByteStreamPrefix) then Some((ByteStreamVariant, s[|ByteStreamPrefix|..]))
    else None
  }

  /**
   * The displayed text names the variant unambiguously: reading it back gives
   * the variant and the inner text, so the three prefixes never shadow each other.
   */
  lemma DisplayRoundTrip(e: S3FilesystemError)
    ensures ParseDisplay(Display(e)) == Some((VariantOf(e), InnerText(e)))
  {
    var s := Display(e);
    match e
    case S3(err) =>
      assert s[..|S3Prefix|] == S3Prefix;
      assert s[|S3Prefix|..] == err.message;
    case Io(err) =>
      assert s[..|IoPrefix|] == IoPrefix;
      assert s[|IoPrefix|..] == err.message;
      assert s[0] == 'I';
      assert !StartsWith(s, S3Prefix) by { assert S3Prefix[0] == 'S'; }
    case ByteStream(err) =>
      assert s[..|ByteStreamPrefix|] == ByteStreamPrefix;
      assert s[|ByteStreamPrefix|..] == err.message;
      assert s[0] == 'B';
      assert !StartsWith(s, S3Prefix) by { assert S3Prefix[0] == 'S'; }
      assert !StartsWith(s, IoPrefix) by { assert IoPrefix[0] == 'I'; }
  }

  /** Two errors print the same text only if they are the same variant with the same inner text. */
  lemma DisplayDistinguishesVariants(e1: S3FilesystemError, e2: S3FilesystemError)
    requires Display(e1) == Display(e2)
    ensures VariantOf(e1) == VariantOf(e2) && InnerText(e1) == InnerText(e2)
  {
    DisplayRoundTrip(e1);
    DisplayRoundTrip(e2);
  }
}
