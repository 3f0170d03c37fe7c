/**
 * The page and the endpoint together. The form the dialog builds crosses the network as a
 * `multipart/form-data` body carrying the selected files in selection order, with the two changes
 * the HTML standard's multipart/form-data encoding makes: an empty file type is sent as
 * `application/octet-stream`, and `"`, CR and LF in names are sent as `%22`, `%0D` and `%0A`.
 * Whether the endpoint sees those escapes decoded again depends on the runtime's multipart
 * parser, which is not modelled: the endpoint is given the names as the browser sent them.
 */
module Submission {
  import opened Text
  import opened Web
  import opened UploadPhotos

  /** The part type a browser writes for a file whose `type` is empty. */
  const OctetStream := "application/octet-stream"

  /** `s` holds none of the characters the multipart encoding escapes in a name. */
  predicate PlainName(s: string)
  {
    forall i :: 0 <= i < |s| ==> s[i] != '"' && s[i] != '\r' && s[i] != '\n'
  }

  /** A field name or filename as written in a part header: `"`, CR and LF become `%22`, `%0D`, `%0A`. */
  function EscapeName(s: string): (r: string)
    ensures PlainName(r)
    ensures PlainName(s) ==> r == s
  {
    if s == [] then []
    else
      (if s[0] == '"' then "%22" else if s[0] == '\r' then "%0D" else if s[0] == '\n' then "%0A" else [s[0]])
      + EscapeName(s[1..])
  }

  /** Escaping works character by character, so it distributes over concatenation. */
  lemma {:induction false} EscapeNameAppend(a: string, b: string)
    ensures EscapeName(a + b) == EscapeName(a) + EscapeName(b)
    decreases |a|
  {
    if a == [] {
      assert a + b == b;
    } else {
      var ab := a + b;
      var rest := a[1..];
      assert ab[0] == a[0] && ab[1..] == rest + b;
      EscapeNameAppend(rest, b);
      var head := if a[0] == '"' then "%22" else if a[0] == '\r' then "%0D" else if a[0] == '\n' then "%0A" else [a[0]];
      calc {
        EscapeName(ab);
        head + EscapeName(rest + b);
        head + (EscapeName(rest) + EscapeName(b));
        (head + EscapeName(rest)) + EscapeName(b);
      }
    }
  }

  /**
   * A file as the browser sends it: the name escaped and an empty type filled in. The endpoint is
   * given this file; a parser that decodes the escapes again is not modelled.
   */
  function Transmit(f: File): File
  {
    File(EscapeName(f.name), if f.mimeType == "" then OctetStream else f.mimeType, f.content)
  }

  /** One entry after the trip: its name is escaped, and a file value is transmitted. */
  function DeliverEntry(e: FormEntry): FormEntry
  {
    FormEntry(EscapeName(e.name),
              match e.value
              case FileValue(f) => FileValue(Transmit(f))
              case TextValue(t) => TextValue(t))
  }

  /**
   * The entries of the body the page sends, in the page's order, as the endpoint is given them.
   * Exact for entry names without CR or LF (the page's only name is `files`): the encoding first
   * turns a lone CR or LF in an entry name into CRLF, which is not modelled.
   */
  function Deliver(form: seq<FormEntry>): (r: seq<FormEntry>)
    ensures |r| == |form|
  {
    seq(|form|, i requires 0 <= i < |form| => DeliverEntry(form[i]))
  }

  /**
   * A recognisable extension survives the trip: a name ending in it in any letter case still ends
   * in it after escaping, since the extension's own characters are never escaped.
   */
  lemma EscapeKeepsExtension(s: string, suffix: string)
    requires PlainName(suffix)
    requires EndsWithIgnoringCase(s, suffix)
    ensures EndsWithIgnoringCase(EscapeName(s), suffix)
  {
    var n := |s| - |suffix|;
    var tail := s[n..];
    assert PlainName(tail) by {
      forall i | 0 <= i < |tail| ensures tail[i] != '"' && tail[i] != '\r' && tail[i] != '\n' {
        assert LowerChar(tail[i]) == suffix[i];
      }
    }
    assert s == s[..n] + tail;
    EscapeNameAppend(s[..n], tail);
    var e := EscapeName(s);
    assert e == EscapeName(s[..n]) + tail;
    forall i | 0 <= i < |suffix| ensures LowerChar(e[|e| - |suffix| + i]) == suffix[i] {
      assert e[|e| - |suffix| + i] == tail[i];
    }
  }

  /** After the trip, a name ending in `.png` in any case still gives `image/png`. */
  lemma TransmittedPngWins(f: File)
    requires EndsWithIgnoringCase(f.name, ".png")
    ensures ResolveMime(Transmit(f).mimeType, Transmit(f).name) == Png
  {
    EscapeKeepsExtension(f.name, ".png");
    PngExtensionWins(Transmit(f).mimeType, Transmit(f).name);
  }

  /** After the trip, a name ending in `.jpg` or `.jpeg` in any case still gives `image/jpeg`. */
  lemma TransmittedJpegWins(f: File)
    requires EndsWithIgnoringCase(f.name, ".jpg") || EndsWithIgnoringCase(f.name, ".jpeg")
    ensures ResolveMime(Transmit(f).mimeType, Transmit(f).name) == Jpeg
  {
    if EndsWithIgnoringCase(f.name, ".jpg") {
      EscapeKeepsExtension(f.name, ".jpg");
    } else {
      EscapeKeepsExtension(f.name, ".jpeg");
    }
    JpegExtensionWins(Transmit(f).mimeType, Transmit(f).name);
  }

  /** After the trip, a name ending in `.webp` in any case still gives `image/webp`. */
  lemma TransmittedWebpWins(f: File)
    requires EndsWithIgnoringCase(f.name, ".webp")
    ensures ResolveMime(Transmit(f).mimeType, Transmit(f).name) == Webp
  {
    EscapeKeepsExtension(f.name, ".webp");
    WebpExtensionWins(Transmit(f).mimeType, Transmit(f).name);
  }

  /**
   * A file without a type and without a recognisable extension reaches Drive as
   * `application/octet-stream`, not as the endpoint's `image/jpeg` default, because the
   * browser has already filled in the type.
   */
  lemma EmptyTypeArrivesAsOctetStream(f: File)
    requires f.mimeType == ""
    requires PlainName(f.name)
    requires !EndsWithIgnoringCase(f.name, ".png") && !EndsWithIgnoringCase(f.name, ".jpg")
    requires !EndsWithIgnoringCase(f.name, ".jpeg") && !EndsWithIgnoringCase(f.name, ".webp")
    ensures ResolveMime(Transmit(f).mimeType, Transmit(f).name) == OctetStream
  {
    DeclaredTypeOtherwise(OctetStream, f.name);
  }

  /** The endpoint's `getAll("files")` on the page's form is the transmitted selection, in order. */
  lemma DeliveredSelection(files: seq<File>, form: seq<FormEntry>)
    requires |form| == |files|
    requires forall i :: 0 <= i < |files| ==> form[i] == FormEntry(FilesField, FileValue(files[i]))
    ensures var values := GetAll(Deliver(form), FilesField);
            |values| == |files| &&
            forall i :: 0 <= i < |files| ==> values[i] == FileValue(Transmit(files[i]))
  {
    var received := Deliver(form);
    assert PlainName(FilesField);
    forall i | 0 <= i < |files|
      ensures received[i] == FormEntry(FilesField, FileValue(Transmit(files[i])))
    {
      assert received[i] == DeliverEntry(form[i]);
    }
    assert forall i :: 0 <= i < |received| ==> received[i].name == FilesField;
  }

  /** On the transmitted selection, a value succeeds exactly when Drive accepts its file's request. */
  lemma SelectionSucceeds(values: seq<FormValue>, files: seq<File>, client: AuthClient,
                          folderId: Option<string>, create: DriveCreate)
    requires |values| == |files|
    requires forall i :: 0 <= i < |files| ==> values[i] == FileValue(Transmit(files[i]))
    ensures forall i :: 0 <= i < |files| ==>
              (Succeeds(client, Requests(folderId), create, i, values[i]) <==>
               create(i, client, CreateRequestFor(Transmit(files[i]), folderId)).Ok?)
  {
  }

  /**
   * A non-empty selection, sent as one `files` entry per file, is never rejected as empty; the
   * endpoint answers 200 exactly when authentication and every transmitted file's upload succeed,
   * and then returns one Drive result per selected file, in selection order.
   */
  lemma SelectionReachesDrive(files: seq<File>, form: seq<FormEntry>, config: Config,
                              getClient: Credentials -> Outcome<AuthClient>,
                              create: DriveCreate)
    requires files != []
    requires |form| == |files|
    requires forall i :: 0 <= i < |files| ==> form[i] == FormEntry(FilesField, FileValue(files[i]))
    ensures var r := PostSpec(config, Parsed(Deliver(form)), getClient, create).response;
            r.status != 400
    ensures var r := PostSpec(config, Parsed(Deliver(form)), getClient, create).response;
            r.status == 200 <==>
              getClient(BuildCredentials(config)).Ok? &&
              forall i :: 0 <= i < |files| ==>
                create(i, getClient(BuildCredentials(config)).value,
                       CreateRequestFor(Transmit(files[i]), config.folderId)).Ok?
    ensures var r := PostSpec(config, Parsed(Deliver(form)), getClient, create).response;
            r.status == 200 ==>
              r.body.SuccessBody? && |r.body.data| == |files| &&
              forall i :: 0 <= i < |files| ==>
                create(i, getClient(BuildCredentials(config)).value,
                       CreateRequestFor(Transmit(files[i]), config.folderId))
                  == Ok(r.body.data[i])
  {
    var received := Deliver(form);
    DeliveredSelection(files, form);
    PostRejectsEmpty(config, Parsed(received), getClient, create);
    PostAllOrNothing(config, Parsed(received), getClient, create);
    if getClient(BuildCredentials(config)).Ok? {
      SelectionSucceeds(GetAll(received, FilesField), files, getClient(BuildCredentials(config)).value,
                        config.folderId, create);
    }
  }
}
