/** The browser and HTTP values shared by the photo page and the upload endpoint. */
module Web {

  datatype Option<T> = None | Some(value: T)

  newtype Byte = x: int | 0 <= x < 256

  /** A `File`: its name, its declared content type (`""` when the browser gives none) and its bytes. */
  datatype File = File(name: string, mimeType: string, content: seq<Byte>)

  /** A `FormDataEntryValue`: an uploaded file or a plain text field. */
  datatype FormValue = FileValue(file: File) | TextValue(text: string)

  /** One entry of a multipart `FormData`, as appended by `formData.append(name, value)`. */
  datatype FormEntry = FormEntry(name: string, value: FormValue)

  /** The form field under which the page sends photos and the endpoint reads them. */
  const FilesField := "files"

  /** `formData.getAll(name)`: the values of the entries called `name`, in insertion order. */
  function GetAll(entries: seq<FormEntry>, name: string): (r: seq<FormValue>)
    ensures |r| <= |entries|
    ensures (forall i :: 0 <= i < |entries| ==> entries[i].name != name) ==> r == []
    ensures (forall i :: 0 <= i < |entries| ==> entries[i].name == name) ==>
              |r| == |entries| && forall i :: 0 <= i < |r| ==> r[i] == entries[i].value
  {
    if entries == [] then []
    else (if entries[0].name == name then [entries[0].value] else []) + GetAll(entries[1..], name)
  }

  /** One entry contributes its value exactly when it carries the name. */
  lemma GetAllOne(e: FormEntry, name: string)
    ensures GetAll([e], name) == if e.name == name then [e.value] else []
  {
    assert [e][1..] == [];
  }

  /**
   * `getAll` over two runs of entries is `getAll` over the first followed by `getAll` over the
   * second. With `GetAllOne` this fixes the result on every form: the values of exactly the
   * entries with that name, in insertion order.
   */
  lemma {:induction false} GetAllAppend(a: seq<FormEntry>, b: seq<FormEntry>, name: string)
    ensures GetAll(a + b, name) == GetAll(a, name) + GetAll(b, name)
    decreases |a|
  {
    if a == [] {
      assert a + b == b;
    } else {
      var ab := a + b;
      var rest := a[1..];
      assert ab[0] == a[0] && ab[1..] == rest + b;
      GetAllAppend(rest, b, name);
      var head := if a[0].name == name then [a[0].value] else [];
      calc {
        GetAll(ab, name);
        head + GetAll(rest + b, name);
        head + (GetAll(rest, name) + GetAll(b, name));
        (head + GetAll(rest, name)) + GetAll(b, name);
      }
    }
  }
}
