/**
 * The photo-selection dialog of the farewell page: the component's state fields and the
 * handlers that change them, run one after another.
 *
 * `URL.createObjectURL` is modelled by a counter of the object URLs created so far; each
 * preview is the URL with that serial for one file. Revoking URLs, the DOM input reset,
 * `fetch` and `router.push` are outside the model; the outcome of the request is an input
 * and the navigation target an output.
 */
module PhotoDialog {
  import opened Web

  /** The most photos one submission may hold. */
  const MaxPhotos := 10

  const TooManyMessage := "Solo puedes subir hasta 10 fotos."

  /** The page the component navigates to after a successful upload. */
  const ThanksPage := "/gracias"

  /** An object URL made for `file`; `serial` tells URLs apart. */
  datatype ObjectUrl = ObjectUrl(serial: nat, file: File)

  /** How `fetch` ended: a response with `ok` set, a response without it, or a thrown error. */
  datatype FetchOutcome = ResponseOk | ResponseNotOk | Threw

  /** `prev.filter((_, i) => i !== index)`: the elements of `s` at every position but `index`. */
  function WithoutIndex<T>(s: seq<T>, index: int): seq<T>
    decreases |s|
  {
    if s == [] then []
    else (if index == 0 then [] else [s[0]]) + WithoutIndex(s[1..], index - 1)
  }

  /** Filtering out one position removes exactly that element, or nothing when it is out of range. */
  lemma {:induction false} WithoutIndexRemovesOne<T>(s: seq<T>, index: int)
    ensures WithoutIndex(s, index) == if 0 <= index < |s| then s[..index] + s[index + 1..] else s
    decreases |s|
  {
    if s != [] {
      WithoutIndexRemovesOne(s[1..], index - 1);
      if 0 < index < |s| {
        assert [s[0]] + (s[1..][..index - 1] + s[1..][index..]) == s[..index] + s[index + 1..];
      } else if index == 0 {
        assert s[..0] + s[1..] == s[1..];
      } else {
        assert [s[0]] + s[1..] == s;
      }
    }
  }

  /** The previews `newFiles.map(file => URL.createObjectURL(file))`, numbered from `first`. */
  function UrlsFor(first: nat, newFiles: seq<File>): seq<ObjectUrl>
  {
    seq(|newFiles|, i requires 0 <= i < |newFiles| => ObjectUrl(first + i, newFiles[i]))
  }

  /** The form built in `handleSendPhotos`: one `files` entry per selected file, in order. */
  method BuildFormData(files: seq<File>) returns (form: seq<FormEntry>)
    ensures |form| == |files|
    ensures forall i :: 0 <= i < |files| ==> form[i] == FormEntry(FilesField, FileValue(files[i]))
  {
    form := [];
    var i := 0;
    while i < |files|
      invariant 0 <= i <= |files|
      invariant |form| == i
      invariant forall j :: 0 <= j < i ==> form[j] == FormEntry(FilesField, FileValue(files[j]))
    {
      form := form + [FormEntry(FilesField, FileValue(files[i]))];
      i := i + 1;
    }
  }

  class Home {
    var isDialogOpen: bool
    var selectedFiles: seq<File>
    var previews: seq<ObjectUrl>
    var error: string
    var loading: bool
    /** How many object URLs the browser has handed out to this page. */
    var urlsCreated: nat

    /**
     * At most ten photos are selected, and `previews[i]` is a distinct object URL made for
     * `selectedFiles[i]`.
     */
    ghost predicate Valid()
      reads this
    {
      |selectedFiles| <= MaxPhotos &&
      |previews| == |selectedFiles| &&
      (forall i :: 0 <= i < |previews| ==>
         previews[i].file == selectedFiles[i] && previews[i].serial < urlsCreated) &&
      (forall i, j :: 0 <= i < j < |previews| ==> previews[i].serial != previews[j].serial)
    }

    /** The initial `useState` values. */
    constructor ()
      ensures Valid()
      ensures !isDialogOpen && selectedFiles == [] && previews == [] && error == "" && !loading
    {
      isDialogOpen := false;
      selectedFiles := [];
      previews := [];
      error := "";
      loading := false;
      urlsCreated := 0;
    }

    /** `handleOpenDialog`: opens the dialog with an empty selection and no error. */
    method OpenDialog()
      requires Valid()
      modifies this
      ensures Valid()
      ensures isDialogOpen && selectedFiles == [] && previews == [] && error == "" && !loading
      ensures urlsCreated == old(urlsCreated)
    {
      isDialogOpen := true;
      selectedFiles := [];
      previews := [];
      error := "";
      loading := false;
    }

    /** `handleCloseDialog`: closes the dialog and forgets the selection and the error. */
    method CloseDialog()
      requires Valid()
      modifies this
      ensures Valid()
      ensures !isDialogOpen && selectedFiles == [] && previews == [] && error == "" && !loading
      ensures urlsCreated == old(urlsCreated)
    {
      isDialogOpen := false;
      selectedFiles := [];
      previews := [];
      error := "";
      loading := false;
    }

    /**
     * `handleFilesChange`: `picked` is `e.target.files` (`None` when the input has none). A batch
     * that would take the selection past ten only sets the error; any other batch is appended
     * after the current files, with one new preview per file, and clears the error.
     */
    method FilesChange(picked: Option<seq<File>>)
      requires Valid()
      modifies this
      ensures Valid()
      ensures isDialogOpen == old(isDialogOpen) && loading == old(loading)
      ensures picked.None? ==>
                selectedFiles == old(selectedFiles) && previews == old(previews) &&
                error == old(error) && urlsCreated == old(urlsCreated)
      ensures picked.Some? && |old(selectedFiles)| + |picked.value| > MaxPhotos ==>
                selectedFiles == old(selectedFiles) && previews == old(previews) &&
                error == TooManyMessage && urlsCreated == old(urlsCreated)
      ensures picked.Some? && |old(selectedFiles)| + |picked.value| <= MaxPhotos ==>
                selectedFiles == old(selectedFiles) + picked.value &&
                previews == old(previews) + UrlsFor(old(urlsCreated), picked.value) &&
                error == "" && urlsCreated == old(urlsCreated) + |picked.value|
    {
      if picked.Some? {
        var newFiles := picked.value;
        if |selectedFiles| + |newFiles| > MaxPhotos {
          error := TooManyMessage;
          return;
        }
        error := "";
        selectedFiles := selectedFiles + newFiles;
        var newPreviews := UrlsFor(urlsCreated, newFiles);
        previews := previews + newPreviews;
        urlsCreated := urlsCreated + |newFiles|;
      }
    }

    /**
     * `handleRemovePhoto`: drops the file and the preview at `index` and keeps the others in
     * order; an index outside the selection removes nothing. The error stays as it was.
     */
    method RemovePhoto(index: int)
      requires Valid()
      modifies this
      ensures Valid()
      ensures selectedFiles == WithoutIndex(old(selectedFiles), index)
      ensures previews == WithoutIndex(old(previews), index)
      ensures 0 <= index < |old(selectedFiles)| ==>
                selectedFiles == old(selectedFiles)[..index] + old(selectedFiles)[index + 1..] &&
                previews == old(previews)[..index] + old(previews)[index + 1..]
      ensures !(0 <= index < |old(selectedFiles)|) ==>
                selectedFiles == old(selectedFiles) && previews == old(previews)
      ensures isDialogOpen == old(isDialogOpen) && error == old(error) && loading == old(loading)
      ensures urlsCreated == old(urlsCreated)
    {
      WithoutIndexRemovesOne(selectedFiles, index);
      WithoutIndexRemovesOne(previews, index);
      selectedFiles := WithoutIndex(selectedFiles, index);
      previews := WithoutIndex(previews, index);
    }

    /**
     * `handleSendPhotos`: with no files or a pending error it does nothing. Otherwise it sets
     * `loading`, submits one `files` entry per selected file in order, and then either goes to
     * the thank-you page (leaving `loading` set) or, on a failed or thrown request, clears
     * `loading`. The selection is never changed.
     */
    method SendPhotos(outcome: FetchOutcome) returns (submitted: Option<seq<FormEntry>>, destination: Option<string>)
      requires Valid()
      modifies this
      ensures Valid()
      ensures selectedFiles == old(selectedFiles) && previews == old(previews) && error == old(error)
      ensures isDialogOpen == old(isDialogOpen) && urlsCreated == old(urlsCreated)
      ensures old(selectedFiles) == [] || old(error) != "" ==>
                submitted.None? && destination.None? && loading == old(loading)
      ensures old(selectedFiles) != [] && old(error) == "" ==>
                submitted.Some? && |submitted.value| == |selectedFiles| &&
                (forall i :: 0 <= i < |selectedFiles| ==>
                   submitted.value[i] == FormEntry(FilesField, FileValue(selectedFiles[i]))) &&
                (outcome.ResponseOk? ==> loading && destination == Some(ThanksPage)) &&
                (!outcome.ResponseOk? ==> !loading && destination.None?)
    {
      if |selectedFiles| == 0 || error != "" {
        return None, None;
      }
      loading := true;
      var form := BuildFormData(selectedFiles);
      submitted := Some(form);
      if outcome.ResponseOk? {
        destination := Some(ThanksPage);
      } else {
        loading := false;
        destination := None;
      }
    }
  }
}
