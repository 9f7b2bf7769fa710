/** `fetch_contents_file`: the URL of the Contents file of an architecture,
    and how the outcome of the HTTP request becomes the returned response or
    one of three exceptions. The request itself (`requests.get` with a
    30-second timeout and `raise_for_status`) is not modelled: it is a
    parameter that maps the URL asked for to the outcome of asking. */
module Fetch {
  import opened Base

  /** How the request ended: a response with a success status, an HTTP
      error status raised by `raise_for_status`, or any other failure of the
      request (no connection, a timeout, ...). */
  datatype Outcome<R> = Ok(response: R) | HttpError(status: int) | RequestFailure

  /** The exceptions `fetch_contents_file` raises, with their messages. */
  datatype FetchError =
    | FileNotFoundError(message: string)
    | SystemError(message: string)
    | ConnectionError(message: string)

  const MirrorPrefix: string := "http://ftp.uk.debian.org/debian/dists/stable/main/Contents-"
  const Suffix: string := ".gz"

  /** The architectures the command line accepts. */
  const ValidArchitectures: seq<string> :=
    ["all", "amd64", "arm64", "armel", "armhf", "i386", "mips64el", "mipsel", "ppc64el", "s390x", "source"]

  /** The URL of the gzip-compressed Contents file of `arch` on the stable
      main suite of the UK mirror. */
  function ContentsUrl(arch: string): string
  {
    MirrorPrefix + arch + Suffix
  }

  /** The architecture a Contents URL names, if it is one. */
  function ArchitectureOf(url: string): Option<string>
  {
    if |url| >= |MirrorPrefix| + |Suffix|
       && url[..|MirrorPrefix|] == MirrorPrefix
       && url[|url| - |Suffix|..] == Suffix
    then Some(url[|MirrorPrefix|..|url| - |Suffix|])
    else None
  }

  /** The architecture can be read back from its URL. */
  lemma ArchitectureOfContentsUrl(arch: string)
    ensures ArchitectureOf(ContentsUrl(arch)) == Some(arch)
  {
    var url := ContentsUrl(arch);
    assert url[..|MirrorPrefix|] == MirrorPrefix;
    assert url[|url| - |Suffix|..] == Suffix;
    assert url[|MirrorPrefix|..|url| - |Suffix|] == arch;
  }

  /** Every URL an architecture is read from is that architecture's URL. */
  lemma ContentsUrlOfArchitecture(url: string, arch: string)
    requires ArchitectureOf(url) == Some(arch)
    ensures ContentsUrl(arch) == url
  {
    assert url == url[..|MirrorPrefix|] + url[|MirrorPrefix|..|url| - |Suffix|] + url[|url| - |Suffix|..];
  }

  /** Distinct architectures are fetched from distinct URLs. */
  lemma ContentsUrlInjective(a: string, b: string)
    requires ContentsUrl(a) == ContentsUrl(b)
    ensures a == b
  {
    ArchitectureOfContentsUrl(a);
    ArchitectureOfContentsUrl(b);
  }

  /** `fetch_contents_file(architecture)` of the package module; `request`
      stands for `requests.get(url)` followed by `raise_for_status()`. */
  function FetchContentsFile<R>(arch: string, request: string -> Outcome<R>): Result<R, FetchError>
  {
    var url := ContentsUrl(arch);
    match request(url)
    case Ok(response) => Success(response)
    case HttpError(status) =>
      if status == 404 then Failure(FileNotFoundError("The requested file is missing on the server: " + url))
      else Failure(SystemError("An HTTP error occurred while trying to fetch data from: " + url))
    case RequestFailure =>
      Failure(ConnectionError("Failed to connect to the server. Check your internet connection. URL: " + url))
  }

  /** `fetch_contents_file(architecture)` of the older script: the same URL,
      written as an f-string broken over two lines, but messages that do not
      name it. */
  function FetchContentsFileRoot<R>(arch: string, request: string -> Outcome<R>): Result<R, FetchError>
  {
    var url := ContentsUrl(arch);
    match request(url)
    case Ok(response) => Success(response)
    case HttpError(status) =>
      if status == 404 then Failure(FileNotFoundError("The requested file is missing on the server."))
      else Failure(SystemError("An HTTP error occurred while trying to fetch data."))
    case RequestFailure =>
      Failure(ConnectionError("Failed to connect to the server." + "Check your internet connection."))
  }

  /** Which exception, without its message. */
  datatype ErrorKind = NotFound | HttpFailure | NoConnection

  function KindOf(e: FetchError): ErrorKind
  {
    match e
    case FileNotFoundError(_) => NotFound
    case SystemError(_) => HttpFailure
    case ConnectionError(_) => NoConnection
  }

  /** The classification the two versions share: success hands the
      response back unchanged, a 404 is FileNotFoundError, any other HTTP
      error SystemError, and any other failure of the request
      ConnectionError. */
  ghost predicate Classifies<R>(outcome: Outcome<R>, r: Result<R, FetchError>)
  {
    && (r.Success? <==> outcome.Ok?)
    && (outcome.Ok? ==> r.value == outcome.response)
    && (r.Failure? ==> (KindOf(r.error) == NotFound <==> outcome == HttpError(404)))
    && (r.Failure? ==> (KindOf(r.error) == HttpFailure <==> outcome.HttpError? && outcome.status != 404))
    && (r.Failure? ==> (KindOf(r.error) == NoConnection <==> outcome.RequestFailure?))
  }

  /** The package module classifies every outcome. */
  lemma FetchClassifies<R>(arch: string, request: string -> Outcome<R>)
    ensures Classifies(request(ContentsUrl(arch)), FetchContentsFile(arch, request))
  {
  }

  /** `b` is what `a + b` ends with. */
  lemma EndsWith(a: string, b: string)
    ensures (a + b)[|a + b| - |b|..] == b
  {
  }

  /** Every message the package module raises ends with the URL it tried. */
  lemma FetchMessagesNameUrl<R>(arch: string, request: string -> Outcome<R>)
    ensures var r := FetchContentsFile(arch, request);
      r.Failure? ==> (|r.error.message| >= |ContentsUrl(arch)|
        && r.error.message[|r.error.message| - |ContentsUrl(arch)|..] == ContentsUrl(arch))
  {
    var url := ContentsUrl(arch);
    match request(url)
    case Ok(_) =>
    case HttpError(status) =>
      if status == 404 {
        EndsWith("The requested file is missing on the server: ", url);
      } else {
        EndsWith("An HTTP error occurred while trying to fetch data from: ", url);
      }
    case RequestFailure =>
      EndsWith("Failed to connect to the server. Check your internet connection. URL: ", url);
  }

  /** The older script classifies every outcome the same way. */
  lemma FetchRootClassifies<R>(arch: string, request: string -> Outcome<R>)
    ensures Classifies(request(ContentsUrl(arch)), FetchContentsFileRoot(arch, request))
  {
  }

  /** Both versions ask for the Contents URL of the architecture and nothing
      else: two requests that answer that URL alike give the same result. */
  lemma FetchRequestsContentsUrl<R>(arch: string, request: string -> Outcome<R>, other: string -> Outcome<R>)
    requires request(ContentsUrl(arch)) == other(ContentsUrl(arch))
    ensures FetchContentsFile(arch, request) == FetchContentsFile(arch, other)
    ensures FetchContentsFileRoot(arch, request) == FetchContentsFileRoot(arch, other)
  {
  }

  /** The two versions, given the same answers, return the same response or
      raise the same kind of exception; only the messages differ. */
  lemma FetchVersionsAgree<R>(arch: string, request: string -> Outcome<R>)
    ensures FetchContentsFile(arch, request).Success? <==> FetchContentsFileRoot(arch, request).Success?
    ensures FetchContentsFile(arch, request).Success? ==>
      FetchContentsFile(arch, request).value == FetchContentsFileRoot(arch, request).value
    ensures FetchContentsFile(arch, request).Failure? ==>
      KindOf(FetchContentsFile(arch, request).error) == KindOf(FetchContentsFileRoot(arch, request).error)
  {
  }

  /** The eleven accepted architectures have eleven distinct URLs. */
  lemma ValidArchitectureUrlsDistinct()
    ensures forall i, j :: 0 <= i < j < |ValidArchitectures| ==>
      ContentsUrl(ValidArchitectures[i]) != ContentsUrl(ValidArchitectures[j])
  {
    forall i, j | 0 <= i < j < |ValidArchitectures|
      ensures ContentsUrl(ValidArchitectures[i]) != ContentsUrl(ValidArchitectures[j])
    {
      if ContentsUrl(ValidArchitectures[i]) == ContentsUrl(ValidArchitectures[j]) {
        ContentsUrlInjective(ValidArchitectures[i], ValidArchitectures[j]);
      }
    }
  }
}
