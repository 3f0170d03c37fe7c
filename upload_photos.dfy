/**
 * The `/api/uploadPhotos` route: MIME resolution, private-key normalisation and the
 * `POST` handler that relays every submitted file to Google Drive, all or nothing.
 *
 * Google's authentication and Drive's `files.create` are not modelled; they are passed
 * in as total functions that either succeed with a value or fail with a message, and the
 * handler returns the sequence of calls it made to them. Drive's answer may depend on how
 * many uploads the request has already made.
 */
module UploadPhotos {
  import opened Text
  import opened Web

  // ---------------------------------------------------------------------------------
  // MIME resolution (route.ts lines 69-74)
  // ---------------------------------------------------------------------------------

  const Png := "image/png"
  const Jpeg := "image/jpeg"
  const Webp := "image/webp"

  /** The content type sent to Drive for a file with the given declared type and name. */
  function ResolveMime(declared: string, name: string): (r: string)
    ensures r == declared || r == Png || r == Jpeg || r == Webp
    ensures r != ""
  {
    var fallback := if declared == "" then Jpeg else declared;
    var lower := ToLower(name);
    if EndsWith(lower, ".png") then Png
    else if EndsWith(lower, ".jpg") || EndsWith(lower, ".jpeg") then Jpeg
    else if EndsWith(lower, ".webp") then Webp
    else fallback
  }

  /** A name ending in `.png`, in any letter case, is sent as PNG whatever it declares. */
  lemma PngExtensionWins(declared: string, name: string)
    requires EndsWithIgnoringCase(name, ".png")
    ensures ResolveMime(declared, name) == Png
  {
    EndsWithLower(name, ".png");
  }

  /** Two suffixes of one string agree on their common tail. */
  lemma SuffixesAgree(s: string, a: string, b: string)
    requires EndsWith(s, a) && EndsWith(s, b) && |a| <= |b|
    ensures b[|b| - |a|..] == a
  {
    assert b[|b| - |a|..] == s[|s| - |a|..];
  }

  /** A lower-cased name ends with at most one of the recognised extensions' families. */
  lemma ExtensionsExclusive(s: string)
    ensures !(EndsWith(s, ".png") && (EndsWith(s, ".jpg") || EndsWith(s, ".jpeg")))
    ensures !(EndsWith(s, ".webp") && (EndsWith(s, ".png") || EndsWith(s, ".jpg") || EndsWith(s, ".jpeg")))
  {
    if EndsWith(s, ".png") && EndsWith(s, ".jpg") { SuffixesAgree(s, ".png", ".jpg"); }
    if EndsWith(s, ".png") && EndsWith(s, ".jpeg") { SuffixesAgree(s, ".png", ".jpeg"); }
    if EndsWith(s, ".webp") && EndsWith(s, ".png") { SuffixesAgree(s, ".png", ".webp"); }
    if EndsWith(s, ".webp") && EndsWith(s, ".jpg") { SuffixesAgree(s, ".jpg", ".webp"); }
    if EndsWith(s, ".webp") && EndsWith(s, ".jpeg") { SuffixesAgree(s, ".webp", ".jpeg"); }
  }

  /** A name ending in `.jpg` or `.jpeg`, in any letter case, is sent as JPEG. */
  lemma JpegExtensionWins(declared: string, name: string)
    requires EndsWithIgnoringCase(name, ".jpg") || EndsWithIgnoringCase(name, ".jpeg")
    ensures ResolveMime(declared, name) == Jpeg
  {
    EndsWithLower(name, ".jpg");
    EndsWithLower(name, ".jpeg");
    ExtensionsExclusive(ToLower(name));
  }

  /** A name ending in `.webp`, in any letter case, is sent as WebP. */
  lemma WebpExtensionWins(declared: string, name: string)
    requires EndsWithIgnoringCase(name, ".webp")
    ensures ResolveMime(declared, name) == Webp
  {
    EndsWithLower(name, ".webp");
    ExtensionsExclusive(ToLower(name));
  }

  /** Without a recognised extension the declared type is kept, or JPEG when none is declared. */
  lemma DeclaredTypeOtherwise(declared: string, name: string)
    requires !EndsWithIgnoringCase(name, ".png") && !EndsWithIgnoringCase(name, ".jpg")
    requires !EndsWithIgnoringCase(name, ".jpeg") && !EndsWithIgnoringCase(name, ".webp")
    ensures ResolveMime(declared, name) == if declared == "" then Jpeg else declared
  {
    EndsWithLower(name, ".png");
    EndsWithLower(name, ".jpg");
    EndsWithLower(name, ".jpeg");
    EndsWithLower(name, ".webp");
  }

  /** Resolution does not depend on the letter case of the file name. */
  lemma ResolveMimeIgnoresCase(declared: string, a: string, b: string)
    requires |a| == |b|
    requires forall i :: 0 <= i < |a| ==> LowerChar(a[i]) == LowerChar(b[i])
    ensures ResolveMime(declared, a) == ResolveMime(declared, b)
  {
    ToLowerIgnoresCase(a, b);
  }

  // ---------------------------------------------------------------------------------
  // Private-key normalisation (route.ts line 56)
  // ---------------------------------------------------------------------------------

  /** `s` holds no backslash immediately followed by the letter `n`. */
  predicate NoEscapedNewline(s: string)
  {
    forall i :: 0 <= i < |s| - 1 ==> !(s[i] == '\\' && s[i + 1] == 'n')
  }

  /** `key.replace(/\\n/g, "\n")`: every backslash-`n` pair, scanned left to right, becomes a newline. */
  function NormalizeKey(s: string): (r: string)
    ensures |r| <= |s|
    ensures (r == []) == (s == [])
    // Only there to carry `NoEscapedNewline` through the recursion: a replaced pair starts
    // with a newline, never with an `n` that a preceding backslash could pair with.
    ensures r != [] ==> (r[0] == 'n') == (s[0] == 'n')
    ensures NoEscapedNewline(r)
    decreases |s|
  {
    if |s| >= 2 && s[0] == '\\' && s[1] == 'n' then "\n" + NormalizeKey(s[2..])
    else if s == [] then []
    else [s[0]] + NormalizeKey(s[1..])
  }

  /** Writes every newline as the two characters backslash and `n`, as a key is stored in the environment. */
  function EscapeNewlines(s: string): (r: string)
    ensures '\n' !in r
  {
    if s == [] then [] else (if s[0] == '\n' then "\\n" else [s[0]]) + EscapeNewlines(s[1..])
  }

  /** Normalisation undoes the escaping of any key that contains no backslash of its own. */
  lemma {:induction false} NormalizeUnescapes(s: string)
    requires '\\' !in s
    ensures NormalizeKey(EscapeNewlines(s)) == s
  {
    if s != [] {
      var e := EscapeNewlines(s);
      assert '\\' !in s[1..];
      NormalizeUnescapes(s[1..]);
      if s[0] == '\n' {
        assert e[2..] == EscapeNewlines(s[1..]);
      } else {
        assert e[1..] == EscapeNewlines(s[1..]);
      }
    }
  }

  /** A string without backslash-`n` pairs is left exactly as it is. */
  lemma {:induction false} NormalizeKeepsPlainText(s: string)
    requires NoEscapedNewline(s)
    ensures NormalizeKey(s) == s
  {
    if s != [] {
      assert NoEscapedNewline(s[1..]) by {
        forall i | 0 <= i < |s[1..]| - 1 ensures !(s[1..][i] == '\\' && s[1..][i + 1] == 'n') {
          assert s[1..][i] == s[i + 1] && s[1..][i + 1] == s[i + 2];
        }
      }
      NormalizeKeepsPlainText(s[1..]);
    }
  }

  /** A key that starts with a backslash-`n` pair: a newline, then the rest normalised. */
  lemma NormalizePairFirst(s: string)
    requires |s| >= 2 && s[0] == '\\' && s[1] == 'n'
    ensures NormalizeKey(s) == "\n" + NormalizeKey(s[2..])
  {
  }

  /** A key whose first character does not start a pair: that character, then the rest normalised. */
  lemma NormalizeCharFirst(s: string)
    requires s != [] && !(|s| >= 2 && s[0] == '\\' && s[1] == 'n')
    ensures NormalizeKey(s) == [s[0]] + NormalizeKey(s[1..])
  {
  }

  /** Dropping a prefix of the left operand of a concatenation. */
  lemma DropFromConcat(a: string, k: nat, t: string)
    requires k <= |a|
    ensures (a + t)[k..] == a[k..] + t
  {
  }

  /** Concatenation regroups. */
  lemma ConcatRegroup(a: string, m: string, b: string)
    ensures a + m + b == a + (m + b)
  {
  }

  /**
   * A backslash-`n` pair becomes one newline, and the text on either side is normalised on its
   * own: a backslash just before the pair cannot take its `n`, since the scan pairs a backslash
   * only with the character after it. With `NormalizeKeepsPlainText`, splitting a key at its
   * leftmost pair fixes the result on every input.
   */
  lemma {:induction false} NormalizeAroundPair(a: string, b: string)
    ensures NormalizeKey(a + "\\n" + b) == NormalizeKey(a) + "\n" + NormalizeKey(b)
    decreases |a|
  {
    var t := "\\n" + b;
    ConcatRegroup(a, "\\n", b);
    if a == [] {
      assert a + t == t;
      NormalizePairFirst(t);
      assert t[2..] == b;
    } else if |a| >= 2 && a[0] == '\\' && a[1] == 'n' {
      DropFromConcat(a, 2, t);
      NormalizePairFirst(a + t);
      NormalizePairFirst(a);
      NormalizeAroundPair(a[2..], b);
      ConcatRegroup(a[2..], "\\n", b);
      ConcatRegroup("\n", NormalizeKey(a[2..]) + "\n", NormalizeKey(b));
    } else {
      DropFromConcat(a, 1, t);
      NormalizeCharFirst(a + t);
      NormalizeCharFirst(a);
      NormalizeAroundPair(a[1..], b);
      ConcatRegroup(a[1..], "\\n", b);
      ConcatRegroup([a[0]], NormalizeKey(a[1..]) + "\n", NormalizeKey(b));
    }
  }

  /** Normalising twice is the same as normalising once. */
  lemma NormalizeIdempotent(s: string)
    ensures NormalizeKey(NormalizeKey(s)) == NormalizeKey(s)
  {
    NormalizeKeepsPlainText(NormalizeKey(s));
  }

  // ---------------------------------------------------------------------------------
  // Configuration, credentials and the provider calls
  // ---------------------------------------------------------------------------------

  /** The OAuth scopes requested on every call (route.ts lines 7-11). */
  const Scopes := ["https://www.googleapis.com/auth/drive",
                   "https://www.googleapis.com/auth/drive.appdata",
                   "https://www.googleapis.com/auth/drive.file"]

  /** The environment variables the route reads; `None` is an unset variable. */
  datatype Config = Config(serviceAccountEmail: Option<string>,
                           privateKey: Option<string>,
                           folderId: Option<string>)

  /** The service-account credentials handed to `GoogleAuth`. */
  datatype Credentials = Credentials(clientEmail: Option<string>,
                                     privateKey: Option<string>,
                                     scopes: seq<string>)

  /** The authenticated client returned by `auth.getClient()`, an opaque handle. */
  datatype AuthClient = AuthClient(handle: nat)

  /** The `requestBody` and `media` given to `drive.files.create`. */
  datatype CreateRequest = CreateRequest(name: string, parents: seq<string>,
                                         mimeType: string, body: seq<Byte>)

  /** The file metadata Drive returns (`response.data`), an opaque record. */
  datatype DriveFile = DriveFile(id: string, name: string)

  /** The result of a call to the provider: a value, or a thrown error carrying `error.message`. */
  datatype Outcome<T> = Ok(value: T) | Fail(message: string)

  /**
   * Drive's `files.create`: its answer to an upload, given how many uploads this request has
   * already made. Two uploads of the same photo may thus get different files, and an upload may
   * fail because of those before it (a quota, a rate limit).
   */
  type DriveCreate = (nat, AuthClient, CreateRequest) -> Outcome<DriveFile>

  /** The calls the handler makes to Google, in the order it makes them. */
  datatype ProviderCall = GetClient(credentials: Credentials)
                        | Create(client: AuthClient, request: CreateRequest)

  /** The credentials built once per request; an unset key stays unset (`?.replace`). */
  function BuildCredentials(config: Config): (c: Credentials)
    ensures c.clientEmail == config.serviceAccountEmail
    ensures c.scopes == Scopes
    ensures c.privateKey.None? <==> config.privateKey.None?
    ensures c.privateKey.Some? ==> NoEscapedNewline(c.privateKey.value)
    ensures config.privateKey.Some? ==> c.privateKey == Some(NormalizeKey(config.privateKey.value))
  {
    Credentials(config.serviceAccountEmail,
                match config.privateKey
                case None => None
                case Some(k) => Some(NormalizeKey(k)),
                Scopes)
  }

  /**
   * A key stored in the environment with its newlines written as backslash-`n` reaches Google as
   * the original key, as long as the key holds no backslash of its own.
   */
  lemma CredentialsRecoverKey(config: Config, key: string)
    requires config.privateKey == Some(EscapeNewlines(key))
    requires '\\' !in key
    ensures BuildCredentials(config).privateKey == Some(key)
  {
    NormalizeUnescapes(key);
  }

  /** `process.env.GOOGLE_DRIVE_FOLDER_ID || ""`: an unset or empty folder becomes `""`. */
  function ParentFolder(folderId: Option<string>): (r: string)
    ensures r == "" <==> folderId.None? || folderId.value == ""
    ensures folderId.Some? ==> r == folderId.value
  {
    if folderId.Some? then folderId.value else ""
  }

  /** The `files.create` request for one uploaded file (route.ts lines 29-38 and 76). */
  function CreateRequestFor(f: File, folderId: Option<string>): (r: CreateRequest)
    ensures r.name == f.name && r.body == f.content
    ensures r.parents == [ParentFolder(folderId)]
    ensures r.mimeType == ResolveMime(f.mimeType, f.name) && r.mimeType != ""
  {
    CreateRequest(f.name, [ParentFolder(folderId)], ResolveMime(f.mimeType, f.name), f.content)
  }

  // ---------------------------------------------------------------------------------
  // Responses
  // ---------------------------------------------------------------------------------

  datatype Body = ErrorBody(error: string) | SuccessBody(success: bool, data: seq<DriveFile>)

  datatype Response = Response(status: int, body: Body)

  const NoFilesMessage := "No se enviaron archivos."
  const DefaultErrorMessage := "Error uploading files"
  /** What `f.arrayBuffer()` throws when a form value under `files` is text, not a file. */
  const NotAFileMessage := "f.arrayBuffer is not a function"

  /** The 500 response built in the `catch` block: `error.message || "Error uploading files"`. */
  function ServerError(message: string): (r: Response)
    ensures r.status == 500 && r.body.ErrorBody? && r.body.error != ""
    ensures message != "" ==> r.body.error == message
  {
    Response(500, ErrorBody(if message == "" then DefaultErrorMessage else message))
  }

  /** `GET` answers 405 whatever the request (route.ts lines 91-93). */
  function Get(): (r: Response)
    ensures r.status == 405 && r.body == ErrorBody("Method GET Not Allowed")
  {
    Response(405, ErrorBody("Method GET Not Allowed"))
  }

  // ---------------------------------------------------------------------------------
  // The upload loop and the POST handler (route.ts lines 42-88)
  // ---------------------------------------------------------------------------------

  /** The multipart body as `req.formData()` yields it, or the message it threw. */
  datatype ParsedForm = Parsed(entries: seq<FormEntry>) | Malformed(message: string)

  datatype BatchOutcome = BatchOk(results: seq<DriveFile>) | BatchFailed(message: string)

  /** The form value is a file and Drive accepts it as upload number `n` of the request. */
  predicate Succeeds(client: AuthClient, request: File -> CreateRequest,
                     create: DriveCreate, n: nat, v: FormValue)
  {
    v.FileValue? && create(n, client, request(v.file)).Ok?
  }

  /** The message of the error the loop throws on a form value, at upload number `n`, that does not succeed. */
  function FailureMessage(client: AuthClient, request: File -> CreateRequest,
                          create: DriveCreate, n: nat, v: FormValue): string
  {
    match v
    case TextValue(_) => NotAFileMessage
    case FileValue(f) =>
      match create(n, client, request(f))
      case Ok(_) => ""
      case Fail(m) => m
  }

  /** `calls` is one `create` per value, in order; every value is a file. */
  predicate CreatesInOrder(calls: seq<ProviderCall>, client: AuthClient, request: File -> CreateRequest,
                           files: seq<FormValue>)
  {
    |calls| == |files| &&
    forall i :: 0 <= i < |files| ==>
      files[i].FileValue? && calls[i] == Create(client, request(files[i].file))
  }

  /** The state of the upload loop: the outcome so far and the `create` calls issued so far. */
  datatype BatchRun = BatchRun(outcome: BatchOutcome, calls: seq<ProviderCall>)

  /**
   * One turn of the `for` loop on value `v`: read it as a file (a text value throws), resolve its
   * type and hand it to Drive. Once the run has failed, nothing more happens.
   */
  function Step(client: AuthClient, request: File -> CreateRequest,
                create: DriveCreate, prior: BatchRun, v: FormValue): BatchRun
  {
    if prior.outcome.BatchFailed? then prior
    else
      match v
      case TextValue(_) => BatchRun(BatchFailed(NotAFileMessage), prior.calls)
      case FileValue(f) =>
        var req := request(f);
        match create(|prior.calls|, client, req)
        case Fail(m) => BatchRun(BatchFailed(m), prior.calls + [Create(client, req)])
        case Ok(d) => BatchRun(BatchOk(prior.outcome.results + [d]), prior.calls + [Create(client, req)])
  }

  /** The `for` loop over `files` as a left fold of `Step`, starting from no results and no calls. */
  function UploadBatch(client: AuthClient, files: seq<FormValue>, request: File -> CreateRequest,
                       create: DriveCreate): (r: BatchRun)
    ensures |r.calls| <= |files|
    ensures r.outcome.BatchOk? ==> |r.outcome.results| == |files| && |r.calls| == |files|
    decreases |files|
  {
    if files == [] then BatchRun(BatchOk([]), [])
    else Step(client, request, create, UploadBatch(client, files[..|files| - 1], request, create), files[|files| - 1])
  }

  /** Running the loop one value further is one more `Step`. */
  lemma UploadBatchSnoc(client: AuthClient, files: seq<FormValue>, i: nat, request: File -> CreateRequest,
                        create: DriveCreate)
    requires i < |files|
    ensures UploadBatch(client, files[..i + 1], request, create) ==
            Step(client, request, create, UploadBatch(client, files[..i], request, create), files[i])
  {
    assert files[..i + 1][..i] == files[..i];
  }

  /** After a failure on a prefix, the rest of the values change nothing. */
  lemma {:induction false} FailureSticks(client: AuthClient, files: seq<FormValue>, k: nat, request: File -> CreateRequest,
                                         create: DriveCreate)
    requires k <= |files|
    requires UploadBatch(client, files[..k], request, create).outcome.BatchFailed?
    ensures UploadBatch(client, files, request, create) == UploadBatch(client, files[..k], request, create)
    decreases |files|
  {
    if k < |files| {
      var front := files[..|files| - 1];
      assert front[..k] == files[..k];
      FailureSticks(client, front, k, request, create);
    } else {
      assert files[..k] == files;
    }
  }

  /** The batch succeeds exactly when every value is a file that Drive accepts. */
  lemma {:induction false} BatchOkIff(client: AuthClient, files: seq<FormValue>, request: File -> CreateRequest,
                                      create: DriveCreate)
    ensures UploadBatch(client, files, request, create).outcome.BatchOk? <==>
            forall i :: 0 <= i < |files| ==> Succeeds(client, request, create, i, files[i])
    decreases |files|
  {
    if files != [] {
      var front := files[..|files| - 1];
      BatchOkIff(client, front, request, create);
      assert forall i :: 0 <= i < |front| ==> front[i] == files[i];
    }
  }

  /** When every value succeeds, there is one result per file, in order, and one `create` per file. */
  lemma {:induction false} BatchAllOk(client: AuthClient, files: seq<FormValue>, request: File -> CreateRequest,
                                      create: DriveCreate)
    requires forall i :: 0 <= i < |files| ==> Succeeds(client, request, create, i, files[i])
    ensures UploadBatch(client, files, request, create).outcome.BatchOk?
    ensures var r := UploadBatch(client, files, request, create);
            |r.outcome.results| == |files| &&
            (forall i :: 0 <= i < |files| ==>
               files[i].FileValue? &&
               create(i, client, request(files[i].file)) == Ok(r.outcome.results[i])) &&
            CreatesInOrder(r.calls, client, request, files)
    decreases |files|
  {
    if files != [] {
      var n := |files| - 1;
      var front := files[..n];
      assert forall i :: 0 <= i < n ==> front[i] == files[i];
      BatchAllOk(client, front, request, create);
      var prior := UploadBatch(client, front, request, create);
      var req := request(files[n].file);
      var d := create(n, client, req).value;
      var r := UploadBatch(client, files, request, create);
      assert r == BatchRun(BatchOk(prior.outcome.results + [d]), prior.calls + [Create(client, req)]);
      forall i | 0 <= i < |files|
        ensures files[i].FileValue? && create(i, client, request(files[i].file)) == Ok(r.outcome.results[i])
        ensures r.calls[i] == Create(client, request(files[i].file))
      {
        if i < n {
          assert front[i] == files[i];
          assert r.outcome.results[i] == prior.outcome.results[i];
          assert r.calls[i] == prior.calls[i];
        }
      }
    }
  }

  /**
   * If value `k` is the first that fails, the batch fails with its message, and the calls made are
   * those for the values before it plus, when it is a file, the one rejected `create`.
   */
  lemma BatchFirstFailure(client: AuthClient, files: seq<FormValue>, k: nat, request: File -> CreateRequest,
                          create: DriveCreate)
    requires k < |files|
    requires forall i :: 0 <= i < k ==> Succeeds(client, request, create, i, files[i])
    requires !Succeeds(client, request, create, k, files[k])
    ensures var r := UploadBatch(client, files, request, create);
            r.outcome == BatchFailed(FailureMessage(client, request, create, k, files[k])) &&
            |r.calls| == (if files[k].FileValue? then k + 1 else k) &&
            (forall i :: 0 <= i < k ==> files[i].FileValue? && r.calls[i] == Create(client, request(files[i].file))) &&
            (files[k].FileValue? ==> r.calls[k] == Create(client, request(files[k].file)))
  {
    var front := files[..k];
    assert forall i :: 0 <= i < k ==> front[i] == files[i];
    BatchAllOk(client, front, request, create);
    var prior := UploadBatch(client, front, request, create);
    UploadBatchSnoc(client, files, k, request, create);
    var step := UploadBatch(client, files[..k + 1], request, create);
    assert forall i :: 0 <= i < k ==> step.calls[i] == prior.calls[i];
    FailureSticks(client, files, k + 1, request, create);
  }

  /** The request builder of the handler: `CreateRequestFor` with the configured folder. */
  function Requests(folderId: Option<string>): File -> CreateRequest
  {
    f => CreateRequestFor(f, folderId)
  }

  /** The handler's result: the response and the calls made to Google, in order. */
  datatype Handled = Handled(response: Response, calls: seq<ProviderCall>)

  /** The whole `POST` handler as a function of the parsed form and the provider's answers. */
  function PostSpec(config: Config, form: ParsedForm,
                    getClient: Credentials -> Outcome<AuthClient>,
                    create: DriveCreate): Handled
  {
    match form
    case Malformed(m) => Handled(ServerError(m), [])
    case Parsed(entries) =>
      var files := GetAll(entries, FilesField);
      if |files| == 0 then Handled(Response(400, ErrorBody(NoFilesMessage)), [])
      else
        var credentials := BuildCredentials(config);
        match getClient(credentials)
        case Fail(m) => Handled(ServerError(m), [GetClient(credentials)])
        case Ok(client) =>
          var batch := UploadBatch(client, files, Requests(config.folderId), create);
          Handled(match batch.outcome
                  case BatchOk(results) => Response(200, SuccessBody(true, results))
                  case BatchFailed(m) => ServerError(m),
                  [GetClient(credentials)] + batch.calls)
  }

  /**
   * The `for` loop of the handler: reads each value as a file, builds its `files.create` request
   * with `request` and uploads it, in order, stopping at the first error.
   */
  method UploadFiles(client: AuthClient, files: seq<FormValue>, request: File -> CreateRequest,
                     create: DriveCreate)
    returns (run: BatchRun)
    ensures run == UploadBatch(client, files, request, create)
  {
    var results: seq<DriveFile> := [];
    var uploads: seq<ProviderCall> := [];
    var i := 0;
    while i < |files|
      invariant 0 <= i <= |files|
      invariant UploadBatch(client, files[..i], request, create) == BatchRun(BatchOk(results), uploads)
    {
      UploadBatchSnoc(client, files, i, request, create);
      match files[i] {
        case TextValue(_) =>
          FailureSticks(client, files, i + 1, request, create);
          return BatchRun(BatchFailed(NotAFileMessage), uploads);
        case FileValue(f) =>
          var req := request(f);
          var created := create(|uploads|, client, req);
          uploads := uploads + [Create(client, req)];
          if created.Fail? {
            FailureSticks(client, files, i + 1, request, create);
            return BatchRun(BatchFailed(created.message), uploads);
          }
          results := results + [created.value];
      }
      i := i + 1;
    }
    assert files[..i] == files;
    run := BatchRun(BatchOk(results), uploads);
  }

  /** The `POST` handler: parse, reject an empty list, authenticate, then run the upload loop. */
  method Post(config: Config, form: ParsedForm,
              getClient: Credentials -> Outcome<AuthClient>,
              create: DriveCreate)
    returns (response: Response, calls: seq<ProviderCall>)
    ensures Handled(response, calls) == PostSpec(config, form, getClient, create)
  {
    if form.Malformed? {
      return ServerError(form.message), [];
    }
    var files := GetAll(form.entries, FilesField);
    if |files| == 0 {
      return Response(400, ErrorBody(NoFilesMessage)), [];
    }
    var credentials := BuildCredentials(config);
    var auth := getClient(credentials);
    if auth.Fail? {
      return ServerError(auth.message), [GetClient(credentials)];
    }
    var run := UploadFiles(auth.value, files, Requests(config.folderId), create);
    calls := [GetClient(credentials)] + run.calls;
    match run.outcome {
      case BatchOk(results) => response := Response(200, SuccessBody(true, results));
      case BatchFailed(m) => response := ServerError(m);
    }
  }

  // ---------------------------------------------------------------------------------
  // Properties of the handler
  // ---------------------------------------------------------------------------------

  /** Once the form has files and authentication succeeds, the response follows the upload loop. */
  lemma PostAfterAuthentication(config: Config, entries: seq<FormEntry>,
                                getClient: Credentials -> Outcome<AuthClient>,
                                create: DriveCreate)
    requires GetAll(entries, FilesField) != []
    requires getClient(BuildCredentials(config)).Ok?
    ensures var batch := UploadBatch(getClient(BuildCredentials(config)).value, GetAll(entries, FilesField),
                                     Requests(config.folderId), create);
            PostSpec(config, Parsed(entries), getClient, create) ==
            Handled(if batch.outcome.BatchOk? then Response(200, SuccessBody(true, batch.outcome.results))
                    else ServerError(batch.outcome.message),
                    [GetClient(BuildCredentials(config))] + batch.calls)
  {
  }

  /** A request without files is rejected with 400 before any call to Google, and only then. */
  lemma PostRejectsEmpty(config: Config, form: ParsedForm,
                         getClient: Credentials -> Outcome<AuthClient>,
                         create: DriveCreate)
    ensures var h := PostSpec(config, form, getClient, create);
            (h.response.status == 400 <==> form.Parsed? && GetAll(form.entries, FilesField) == []) &&
            (h.response.status == 400 ==> h.response.body == ErrorBody(NoFilesMessage) && h.calls == [])
  {
  }

  /**
   * All or nothing: the status is 200 exactly when authentication and every upload succeed, and
   * then `data` holds one Drive result per submitted file, in submission order, however many
   * files there are. Every other response is an error body without `data`.
   */
  lemma PostAllOrNothing(config: Config, form: ParsedForm,
                         getClient: Credentials -> Outcome<AuthClient>,
                         create: DriveCreate)
    ensures var r := PostSpec(config, form, getClient, create).response;
            r.status == 200 || r.status == 400 || r.status == 500
    ensures var r := PostSpec(config, form, getClient, create).response;
            r.status != 200 ==> r.body.ErrorBody?
    ensures var r := PostSpec(config, form, getClient, create).response;
            r.status == 200 <==>
              form.Parsed? && GetAll(form.entries, FilesField) != [] &&
              getClient(BuildCredentials(config)).Ok? &&
              forall i :: 0 <= i < |GetAll(form.entries, FilesField)| ==>
                Succeeds(getClient(BuildCredentials(config)).value, Requests(config.folderId), create, i,
                         GetAll(form.entries, FilesField)[i])
    ensures var r := PostSpec(config, form, getClient, create).response;
            r.status == 200 ==>
              var files := GetAll(form.entries, FilesField);
              var client := getClient(BuildCredentials(config)).value;
              r.body.SuccessBody? && r.body.success && |r.body.data| == |files| &&
              forall i :: 0 <= i < |files| ==>
                files[i].FileValue? &&
                create(i, client, CreateRequestFor(files[i].file, config.folderId)) == Ok(r.body.data[i])
  {
    if form.Parsed? && GetAll(form.entries, FilesField) != [] && getClient(BuildCredentials(config)).Ok? {
      var files := GetAll(form.entries, FilesField);
      var client := getClient(BuildCredentials(config)).value;
      BatchOkIff(client, files, Requests(config.folderId), create);
      if forall i :: 0 <= i < |files| ==> Succeeds(client, Requests(config.folderId), create, i, files[i]) {
        BatchAllOk(client, files, Requests(config.folderId), create);
      }
    }
  }

  /**
   * On the first file that fails, the response is 500 with that error's message (or the default
   * one). The calls are the authentication followed by the batch's calls, which
   * `BatchFirstFailure` describes: the uploads up to that file and none after it.
   */
  lemma PostStopsAtFirstFailure(config: Config, entries: seq<FormEntry>, files: seq<FormValue>,
                                client: AuthClient, k: nat,
                                getClient: Credentials -> Outcome<AuthClient>,
                                create: DriveCreate)
    requires files == GetAll(entries, FilesField)
    requires getClient(BuildCredentials(config)) == Ok(client)
    requires k < |files|
    requires forall i :: 0 <= i < k ==> Succeeds(client, Requests(config.folderId), create, i, files[i])
    requires !Succeeds(client, Requests(config.folderId), create, k, files[k])
    ensures var h := PostSpec(config, Parsed(entries), getClient, create);
            h.response == ServerError(FailureMessage(client, Requests(config.folderId), create, k, files[k])) &&
            |h.calls| == (if files[k].FileValue? then k + 2 else k + 1) &&
            h.calls == [GetClient(BuildCredentials(config))] +
                       UploadBatch(client, files, Requests(config.folderId), create).calls
  {
    BatchFirstFailure(client, files, k, Requests(config.folderId), create);
    PostAfterAuthentication(config, entries, getClient, create);
  }
}
