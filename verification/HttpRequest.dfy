/** The request object and the questions the parser asks of it. */
module HttpRequests {
  import opened Bytes
  import opened HttpText

  datatype HttpMethod = GET | POST | HEAD | UNKNOWN

  /** An uploaded file; its bytes are in the host's file of that path. */
  datatype UploadedFile = UploadedFile(filename: string, contentType: string, tempPath: string, size: nat)

  /** Header names, each with its value. */
  type Headers = map<string, string>

  datatype Request = Request(
    verb: HttpMethod, path: string, version: string, headers: Headers, rawBody: string,
    formFields: map<string, string>, uploadedFiles: map<string, UploadedFile>)

  const EMPTY_REQUEST: Request := Request(UNKNOWN, "", "", map[], "", map[], map[])

  function Names(h: Headers, key: string): set<string> { set n | n in h && SameName(n, key) }

  /** No two names are equal but for case. */
  predicate NoTwins(h: Headers) { forall a, b :: a in h && b in h && SameName(a, b) ==> a == b }

  /**
    get_header: the value of a header whose name is the key, compared without case. Of several such headers the
    program takes whichever its hash map visits first; here the least name stands for it.
   */
  function GetHeader(h: Headers, key: string): (r: Option<string>)
    ensures r.None? <==> forall n :: n in h ==> !SameName(n, key)
    ensures r.Some? ==> exists n :: n in h && SameName(n, key) && h[n] == r.value
  {
    if Names(h, key) == {} then assert forall n :: n in h && SameName(n, key) ==> n in Names(h, key); None
    else Some(h[Least(Names(h, key))])
  }

  /** Without twins there is no choice. */
  lemma OnlyHeader(h: Headers, key: string, n: string)
    requires NoTwins(h) && n in h && SameName(n, key)
    ensures GetHeader(h, key) == Some(h[n])
  {
    forall m | m in h && SameName(m, key) ensures m == n {
      assert SameName(m, n);
    }
  }

  predicate HeaderHas(h: Headers, key: string, text: string) {
    var v := GetHeader(h, key);
    v.Some? && Find(v.value, text, 0).Some?
  }

  predicate IsMultipart(h: Headers) { HeaderHas(h, "Content-Type", "multipart/form-data") }

  predicate IsForm(h: Headers) { HeaderHas(h, "Content-Type", "application/x-www-form-urlencoded") }

  /** What follows "boundary=" in the content type, without one pair of surrounding quotes. */
  function GetBoundary(h: Headers): string {
    var v := GetHeader(h, "Content-Type");
    if v.None? then ""
    else match Find(v.value, "boundary=", 0)
      case None => ""
      case Some(i) => Unquote(v.value[i + 9..])
  }

  function Unquote(b: string): string {
    if b != "" && b[0] == '"' && b[|b| - 1] == '"' then
      if |b| == 1 then "" else b[1..|b| - 1]
    else b
  }

  /** The declared body length, None when std::stoul throws. */
  function ContentLength(h: Headers): Option<nat> {
    match GetHeader(h, "Content-Length")
    case None => None
    case Some(v) => Stoul(v)
  }
}
