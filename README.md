# Wedding photo upload: a Dafny model

Guests at an event pick up to ten photos in a dialog on the farewell page
(`despedidaAmigos5Abril`) and send them as one multipart form to the
`/api/uploadPhotos` endpoint. The endpoint uploads the files to a Google Drive folder one
after another, using a service account. This project models two pieces:

- **The upload endpoint** (module `UploadPhotos`).
  - `ResolveMime` picks a file's content type. A `.png`, `.jpg`/`.jpeg` or `.webp`
    extension decides it, in any letter case. Otherwise the declared type is used, or
    `image/jpeg` when the declared type is empty.
  - `NormalizeKey` turns every backslash-`n` pair in the private key into a newline.
  - `Post` is the `POST` handler. An empty file list gives 400 and makes no call to Google.
    Otherwise the handler authenticates and uploads each file in order. The first error
    gives 500 with its message and no `data`. Success gives 200 with one Drive result per
    file. The endpoint has no cap on the number of files.
  - The upload loop (`UploadBatch`, `UploadFiles`) and its lemmas take the function that turns a
    file into a `files.create` request as a parameter. The handler passes `Requests(folderId)`:
    the file's name, the configured parent folder, the type from `ResolveMime` and the bytes.
  - `Get` always answers 405.
  - Google's authentication and Drive's `files.create` are function parameters. Each one
    returns either a value or an error message. Drive's answer (`DriveCreate`) also receives how
    many uploads the request has already made. So two uploads of the same photo can get
    different files, and an upload can fail because of the ones before it. `Post` also returns
    the sequence of calls it made, so the model can state which uploads were attempted.
- **The photo dialog** (module `PhotoDialog`, class `Home`). It holds the component's
  fields `isDialogOpen`, `selectedFiles`, `previews`, `error` and `loading`, and one method
  per handler.
  - The invariant `Valid()` says that at most ten files are selected.
  - It also says that `previews[i]` is a distinct object URL made for `selectedFiles[i]`.
    This implies that the two lists have the same length.
- **Submission** ties the two pieces together. The form the dialog builds is sent with the
  selected files in selection order, with the two changes the HTML standard's
  multipart/form-data encoding makes on the way (`Transmit`). A file whose type is empty is sent
  typed `application/octet-stream`. In every name, the browser sends `"`, CR and LF as `%22`,
  `%0D` and `%0A`. Whether the endpoint sees these escapes decoded again depends on the
  runtime's multipart parser, which is not modelled. The endpoint is given the names as sent.

Modules `Text` (ASCII lower-casing and suffix tests) and `Web` (files, form entries,
`FormData.getAll`) hold the shared values.

The handler uploads strictly one file after another, and the page caps a selection at 10.

## Model

| member | source | states |
|---|---|---|
| `Text.ToLower` | src/app/api/uploadPhotos/route.ts:70 | the lower-cased name has the same length and lower-cases each character in place |
| `Text.EndsWithLower` | src/app/api/uploadPhotos/route.ts:70-74 | `endsWith` on the lower-cased name holds exactly when the name ends with the extension in any letter case |
| `Text.ToLowerIgnoresCase` | src/app/api/uploadPhotos/route.ts:70 | names that differ only in letter case have the same lower-case form |
| `Web.GetAll` | src/app/api/uploadPhotos/route.ts:47 | `getAll` returns no more values than there are entries; none when no entry has the name; every value, in order, when all entries have it |
| `Web.GetAllOne` | src/app/api/uploadPhotos/route.ts:47 | a single entry contributes its value exactly when it carries the name |
| `Web.GetAllAppend` | src/app/api/uploadPhotos/route.ts:47 | `getAll` over two runs of entries is the first run's values followed by the second's; with `GetAllOne`, the result on any form is the values of exactly the named entries, in order |
| `UploadPhotos.ResolveMime` | src/app/api/uploadPhotos/route.ts:69-74 | the resolved type is never empty and is the declared type or one of `image/png`, `image/jpeg`, `image/webp` |
| `UploadPhotos.PngExtensionWins` | src/app/api/uploadPhotos/route.ts:70-71 | a name ending in `.png` in any case resolves to `image/png`, whatever type is declared |
| `UploadPhotos.ExtensionsExclusive` | src/app/api/uploadPhotos/route.ts:71-74 | no lower-cased name ends with two of the recognised extension families, so the order of the tests does not matter |
| `UploadPhotos.JpegExtensionWins` | src/app/api/uploadPhotos/route.ts:72-73 | a name ending in `.jpg` or `.jpeg` in any case resolves to `image/jpeg` |
| `UploadPhotos.WebpExtensionWins` | src/app/api/uploadPhotos/route.ts:74 | a name ending in `.webp` in any case resolves to `image/webp` |
| `UploadPhotos.DeclaredTypeOtherwise` | src/app/api/uploadPhotos/route.ts:69 | with no recognised extension, the result is the declared type, or `image/jpeg` when the declared type is empty |
| `UploadPhotos.ResolveMimeIgnoresCase` | src/app/api/uploadPhotos/route.ts:70 | two names that differ only in letter case resolve to the same type |
| `UploadPhotos.NormalizeKey` | src/app/api/uploadPhotos/route.ts:56 | the normalised key is no longer than the input, is empty only for an empty input, and contains no backslash-`n` pair |
| `UploadPhotos.EscapeNewlines` | src/app/api/uploadPhotos/route.ts:56 | an escaped key, as stored in the environment, contains no newline |
| `UploadPhotos.NormalizeUnescapes` | src/app/api/uploadPhotos/route.ts:56 | normalising an escaped key gives back the original key when the key has no backslash |
| `UploadPhotos.NormalizeKeepsPlainText` | src/app/api/uploadPhotos/route.ts:56 | text without a backslash-`n` pair comes back unchanged |
| `UploadPhotos.NormalizeAroundPair` | src/app/api/uploadPhotos/route.ts:56 | for any text `a` and `b`, a backslash-`n` pair between them becomes one newline and each side is normalised on its own; with `NormalizeKeepsPlainText`, splitting a key at its leftmost pair fixes the result on every input |
| `UploadPhotos.NormalizeIdempotent` | src/app/api/uploadPhotos/route.ts:56 | normalising twice gives the same key as normalising once |
| `UploadPhotos.BuildCredentials` | src/app/api/uploadPhotos/route.ts:53-59 | the credentials keep the configured email, request the three fixed scopes, keep an unset key unset, pass a set key on as `NormalizeKey` of it (whose effect the `Normalize` lemmas state), and never carry a backslash-`n` pair in the key |
| `UploadPhotos.CredentialsRecoverKey` | src/app/api/uploadPhotos/route.ts:53-57 | a key stored with its newlines escaped, and with no backslash of its own, reaches Google as the original key |
| `UploadPhotos.ParentFolder` | src/app/api/uploadPhotos/route.ts:32 | the parent folder is `""` exactly when the folder is unset or empty; a set folder is passed on as it is |
| `UploadPhotos.CreateRequestFor` | src/app/api/uploadPhotos/route.ts:29-38 | the request carries the original name, the one parent folder, the bytes, and the type `ResolveMime` picks, which is never empty |
| `UploadPhotos.ServerError` | src/app/api/uploadPhotos/route.ts:81-86 | a caught error gives status 500 and an error body that is never empty; a non-empty message is passed through unchanged |
| `UploadPhotos.Get` | src/app/api/uploadPhotos/route.ts:91-93 | `GET` gives status 405 with the error `Method GET Not Allowed` |
| `UploadPhotos.UploadBatch` | src/app/api/uploadPhotos/route.ts:61-78 | the loop makes at most one `create` call per value; a successful batch has one result per value |
| `UploadPhotos.FailureSticks` | src/app/api/uploadPhotos/route.ts:64-86 | after the first failure, the later values add no calls and do not change the outcome |
| `UploadPhotos.BatchOkIff` | src/app/api/uploadPhotos/route.ts:64-78 | the batch succeeds exactly when every value is a file that Drive accepts (both directions) |
| `UploadPhotos.BatchAllOk` | src/app/api/uploadPhotos/route.ts:61-80 | when every value succeeds, result `i` is Drive's answer for file `i` as upload number `i`, and the calls are one `create` per file, in order |
| `UploadPhotos.BatchFirstFailure` | src/app/api/uploadPhotos/route.ts:64-86 | when value `k` is the first that fails, the batch fails with its message (a text value gives the `TypeError` message); call `i` is the `create` of file `i` for every `i < k`, call `k` is the rejected `create` when value `k` is a file, and there are no further calls |
| `UploadPhotos.UploadBatchSnoc` | src/app/api/uploadPhotos/route.ts:64-78 | running the loop over one more value is one more turn of the loop body on that value |
| `UploadPhotos.UploadFiles` | src/app/api/uploadPhotos/route.ts:61-78 | the loop, which returns at the first error, computes exactly the run (outcome and calls) of the left-fold specification `UploadBatch` |
| `UploadPhotos.PostAfterAuthentication` | src/app/api/uploadPhotos/route.ts:60-86 | once the form has files and authentication succeeds, the response is 200 with the batch's results or the 500 for its failure, and the calls are the authentication followed by the batch's calls |
| `UploadPhotos.Post` | src/app/api/uploadPhotos/route.ts:42-88 | the sequential loop with its early exit returns exactly the response and the call sequence of the handler's specification `PostSpec` |
| `UploadPhotos.PostRejectsEmpty` | src/app/api/uploadPhotos/route.ts:47-50 | status 400 occurs exactly when the parsed form has no `files` entry, and then the body is the fixed error and no call to Google is made |
| `UploadPhotos.PostAllOrNothing` | src/app/api/uploadPhotos/route.ts:61-87 | the status is 200, 400 or 500; every non-200 response is an error body; 200 occurs exactly when authentication and every upload succeed, for any number of files, and then `data` holds one result per file in submission order |
| `UploadPhotos.PostStopsAtFirstFailure` | src/app/api/uploadPhotos/route.ts:60-86 | when file `k` is the first that fails, the response is the 500 for its message; the calls are the authentication followed by the batch's calls (`k + 1` of them for a rejected file, `k` for a text value), so no later file reaches Drive |
| `PhotoDialog.WithoutIndexRemovesOne` | src/app/despedidaAmigos5Abril/page.tsx:54-55 | filtering out index `i` removes exactly element `i` and keeps the rest in order; an index out of range removes nothing |
| `PhotoDialog.BuildFormData` | src/app/despedidaAmigos5Abril/page.tsx:78-81 | the form has one `files` entry per selected file, in selection order |
| `PhotoDialog.Home.constructor` | src/app/despedidaAmigos5Abril/page.tsx:9-13 | the initial state is closed, with nothing selected, no error, not loading, and satisfies the invariant |
| `PhotoDialog.Home.OpenDialog` | src/app/despedidaAmigos5Abril/page.tsx:16-23 | opening sets the dialog open and resets files, previews, error and loading |
| `PhotoDialog.Home.CloseDialog` | src/app/despedidaAmigos5Abril/page.tsx:26-33 | closing sets the dialog closed and resets files, previews, error and loading |
| `PhotoDialog.Home.FilesChange` | src/app/despedidaAmigos5Abril/page.tsx:36-49 | no file list changes nothing; a batch that would exceed ten photos only sets the error; an accepted batch appends the files and one new preview per file, in order, and clears the error; the invariant is kept |
| `PhotoDialog.Home.RemovePhoto` | src/app/despedidaAmigos5Abril/page.tsx:52-56 | removal at `index` deletes exactly that element from both lists and keeps the rest in order; the error and the other fields are unchanged; the invariant is kept |
| `PhotoDialog.Home.SendPhotos` | src/app/despedidaAmigos5Abril/page.tsx:73-98 | with no files or an error it does nothing; otherwise it sends one `files` entry per selected file in order, then either navigates to `/gracias` with `loading` set, or clears `loading` on a failed or thrown request; the selection is never changed |
| `Submission.EscapeName` | src/app/despedidaAmigos5Abril/page.tsx:78-86 | an escaped name holds no `"`, CR or LF, and a name without them is sent unchanged |
| `Submission.EscapeNameAppend` | src/app/despedidaAmigos5Abril/page.tsx:78-86 | escaping works character by character, so escaping a concatenation concatenates the escaped parts |
| `Submission.EscapeKeepsExtension` | src/app/despedidaAmigos5Abril/page.tsx:78-86 | a name that ends in an extension in any letter case still ends in it after escaping |
| `Submission.TransmittedPngWins` | src/app/api/uploadPhotos/route.ts:69-71 | a file whose name ends in `.png` in any case is still typed `image/png` by the endpoint after the trip |
| `Submission.TransmittedJpegWins` | src/app/api/uploadPhotos/route.ts:69-73 | a file whose name ends in `.jpg` or `.jpeg` in any case is still typed `image/jpeg` after the trip |
| `Submission.TransmittedWebpWins` | src/app/api/uploadPhotos/route.ts:69-74 | a file whose name ends in `.webp` in any case is still typed `image/webp` after the trip |
| `Submission.EmptyTypeArrivesAsOctetStream` | src/app/api/uploadPhotos/route.ts:69-74 | a file with an empty type, no recognised extension and no `"`, CR or LF in its name reaches Drive as `application/octet-stream`, not as the endpoint's `image/jpeg` default |
| `Submission.DeliveredSelection` | src/app/despedidaAmigos5Abril/page.tsx:78-86 | the endpoint's `getAll("files")` on the page's form is the transmitted selection, one value per file, in selection order |
| `Submission.SelectionSucceeds` | src/app/api/uploadPhotos/route.ts:64-78 | on the transmitted selection, a value succeeds exactly when Drive accepts its file's request at that position |
| `Submission.SelectionReachesDrive` | src/app/despedidaAmigos5Abril/page.tsx:78-86 | the form the dialog sends is never answered with 400; the endpoint answers 200 exactly when authentication and the upload of every transmitted file succeed, and then returns one result per selected file in selection order |

## Left out

- Google authentication and Drive's `files.create` (route.ts lines 20-40 and 53-60) are foreign network calls. They are function parameters that return a value or an error message. Drive's answer depends only on the request, the client and how many uploads the request has already made. It does not depend on the contents of earlier uploads, on earlier requests or on time. Its effect on Drive is not modelled, so neither is the absence of de-duplication across requests.
- `bufferToStream`, `Buffer.from` and `arrayBuffer` are Node stream and buffer plumbing. A file's bytes are passed through as they are. A read failure of `arrayBuffer` on a real file is not modelled.
- A text value under `files` makes `f.arrayBuffer()` throw a `TypeError`, and the handler answers 500. The model gives that error the fixed message `NotAFileMessage`, which is the usual V8 wording; the exact text depends on the JavaScript engine.
- `req.formData()` multipart parsing is framework I/O. Its result is an input: the parsed entries, or the message it threw. `NextResponse` is the `Response` datatype of a status and a body.
- The multipart body itself (boundaries, part headers, `filename*`) is not modelled. `Transmit` covers only the two changes a browser makes to a file: the empty type and the escaped name. The server's multipart parser is not modelled. A parser that decodes `%22`, `%0D` and `%0A` back into characters gives the endpoint names that differ from the model's for names holding `"`, CR or LF. The encoding also turns a lone CR or LF in an entry name into CRLF before escaping it. So `DeliverEntry` is exact only for entry names without CR or LF, such as the page's `files`. Line-break normalisation of text values is left out, because the page sends no text values.
- `console.log` and `console.error` logging are left out.
- Next.js's answer to methods other than `GET` and `POST` is framework behaviour, not code of this route.
- Text.ToLower: lower-cases only the ASCII letters A-Z, whereas `toLowerCase` folds every Unicode letter.
- `URL.createObjectURL` is modelled as a counter of URLs created so far. `URL.revokeObjectURL` (page.tsx lines 27 and 53) only releases browser memory and is left out.
- `fileToBase64` (page.tsx lines 59-70) is never called.
- `fetch` and `router.push` are external. The request's outcome is an input of `SendPhotos`, and the navigation target is an output.
- The React `setState` calls are asynchronous. The handlers are modelled as transitions that run one after another, so stale state inside one render is not modelled.
- `e.target.value = ""` resets a DOM input and is left out.
- JSX rendering, fonts and styling (page.tsx lines 100-294) are left out. This includes the buttons the page disables while `loading` is set. `SendPhotos` models the handler, which does not check `loading` itself.
- `src/app/gracias/page.tsx` is navigation glue only and is not part of this model.
