/**
 * The administrator's file upload (`POST /api/m/admin/upload`): a material's
 * preview image, problem file or extra file is checked by role, emptiness,
 * extension and size, then stored under a fresh name; for a problem file the
 * preview pages are generated and a warning is given when a HWP file yields
 * none. Writing the file and generating the previews are I/O: their results
 * are parameters here.
 */
module Upload {
  import opened Optional
  import opened JsText

  const MiB := 1024 * 1024
  const PreviewLimit := 10 * MiB
  const FileLimit := 100 * MiB
  const HwpPreviewWarning := "HWP 미리보기를 자동 생성하지 못했습니다. 미리보기 이미지를 직접 업로드해 주세요."

  /** The three kinds of upload a material has. */
  datatype FileRole = Preview | Problem | Etc

  /** `fd.get('fileRole') || 'problem'`, looked up in the extension table; a name that
      is not in the table has no role. */
  function RoleOf(raw: Option<string>): (r: Option<FileRole>)
    ensures raw.None? || raw.value == "" ==> r == Some(Problem)
    ensures r == Some(Preview) <==> raw == Some("preview")
  {
    var name := if raw.Some? && raw.value != "" then raw.value else "problem";
    if name == "preview" then Some(Preview)
    else if name == "problem" then Some(Problem)
    else if name == "etc" then Some(Etc)
    else None
  }

  /** The extensions each role accepts; a role missing from the table accepts none. */
  function AllowedExtensions(role: Option<FileRole>): (r: seq<string>)
    ensures role.None? ==> r == []
  {
    match role
    case None => []
    case Some(Preview) => ["jpg", "jpeg", "png", "webp"]
    case Some(_) => ["pdf", "hwp"]
  }

  /** `name.split('.').pop().toLowerCase()`: the lower-cased text after the last dot,
      the whole name when it has no dot. */
  function Extension(name: string): (r: string)
    ensures '.' !in r
    ensures forall i :: 0 <= i < |r| ==> !IsAsciiUpper(r[i])
    ensures |r| <= |name|
  {
    var piece := LastPiece(name, '.');
    assert forall i :: 0 <= i < |piece| ==> LowerChar(piece[i]) != '.';
    ToLower(piece)
  }

  /** The extension is the lower-cased text after the last dot of the name, or the
      whole name lower-cased when it has no dot. */
  lemma ExtensionAfterLastDot(name: string)
    ensures '.' !in name ==> Extension(name) == ToLower(name)
    ensures '.' in name ==> exists k :: 0 <= k < |name| && name[k] == '.' && '.' !in name[k + 1..]
                                        && Extension(name) == ToLower(name[k + 1..])
  {
    var k := LastIndexOf(name, '.');
    assert Extension(name) == ToLower(name[k + 1..]);
    if k == -1 {
      assert name[k + 1..] == name;
    } else {
      assert '.' !in name[k + 1..] by {
        var tail := name[k + 1..];
        forall j | 0 <= j < |tail|
          ensures tail[j] != '.'
        {
          assert tail[j] == name[k + 1 + j];
        }
      }
    }
  }

  /** `10 MB` for previews, `100 MB` for everything else. */
  function SizeLimit(role: Option<FileRole>): (r: nat)
    ensures r == (if role == Some(Preview) then PreviewLimit else FileLimit)
    ensures r >= PreviewLimit
  {
    if role == Some(Preview) then PreviewLimit else FileLimit
  }

  /** The `file` field of the form: missing, a text field, or a file with its name and size. */
  datatype FileField = NoField | TextField(text: string) | FileData(name: string, size: nat)

  datatype Form = Form(file: FileField, fileRole: Option<string>)

  /** Where a stored file goes: previews are public, the other files are not. */
  datatype Directory = PublicPreviews | PrivateFiles

  datatype Outcome =
    | Forbidden
    | BadForm
    | NoFile
    | EmptyFile
    | BadExtension(allowed: seq<string>)
    | TooLarge(limit: nat)
    | Stored(dir: Directory, filename: string, previews: seq<string>, warning: string)

  /** The POST. `sessionRole` is the role in the session (`None` without one or
      without a role), `form` the parsed form (`None` when it cannot be parsed),
      `id` the generated 12-character name and `generated` what the preview
      generator returns for the stored file. */
  function Upload(sessionRole: Option<string>, form: Option<Form>, id: string, generated: seq<string>): Outcome {
    if sessionRole != Some("admin") then Forbidden
    else if form.None? then BadForm
    else if !form.value.file.FileData? then NoFile
    else if form.value.file.size == 0 then EmptyFile
    else
      var role := RoleOf(form.value.fileRole);
      var ext := Extension(form.value.file.name);
      if ext == "" || ext !in AllowedExtensions(role) then BadExtension(AllowedExtensions(role))
      else if form.value.file.size > SizeLimit(role) then TooLarge(SizeLimit(role))
      else
        var filename := id + "." + ext;
        if role == Some(Preview) then Stored(PublicPreviews, filename, [], "")
        else if role == Some(Problem) then
          Stored(PrivateFiles, filename, generated, if ext == "hwp" && generated == [] then HwpPreviewWarning else "")
        else Stored(PrivateFiles, filename, [], "")
  }

  /** A file is stored exactly when an administrator sends a non-empty file whose
      extension the role accepts and whose size is within the role's limit. */
  lemma StoredIff(sessionRole: Option<string>, form: Option<Form>, id: string, generated: seq<string>)
    ensures Upload(sessionRole, form, id, generated).Stored? <==>
      sessionRole == Some("admin") && form.Some? && form.value.file.FileData?
      && 0 < form.value.file.size <= SizeLimit(RoleOf(form.value.fileRole))
      && Extension(form.value.file.name) in AllowedExtensions(RoleOf(form.value.fileRole))
  {
  }

  /** A role name outside the table lets nothing through, whatever the file. */
  lemma UnknownRoleStoresNothing(sessionRole: Option<string>, form: Option<Form>, id: string, generated: seq<string>)
    requires form.Some? && RoleOf(form.value.fileRole).None?
    ensures !Upload(sessionRole, form, id, generated).Stored?
  {
  }

  /** A stored file is named by the generated id and its lower-cased extension, goes
      to the public directory exactly when it is a preview, gets previews only when it
      is a problem file, and a warning only for a HWP problem file without previews. */
  lemma StoredFile(sessionRole: Option<string>, form: Option<Form>, id: string, generated: seq<string>)
    requires Upload(sessionRole, form, id, generated).Stored?
    ensures var r := Upload(sessionRole, form, id, generated);
      var role := RoleOf(form.value.fileRole);
      var ext := Extension(form.value.file.name);
      r.filename == id + "." + ext
      && (r.dir == PublicPreviews <==> role == Some(Preview))
      && (r.previews != [] ==> role == Some(Problem))
      && (role == Some(Problem) ==> r.previews == generated)
      && (r.warning != "" <==> role == Some(Problem) && ext == "hwp" && generated == [])
      && (role == Some(Preview) ==> form.value.file.size <= 10 * MiB && ext in {"jpg", "jpeg", "png", "webp"})
      && (role != Some(Preview) ==> ext in {"pdf", "hwp"})
  {
    var f := form.value;
    var role := RoleOf(f.fileRole);
    var ext := Extension(f.file.name);
    var filename := id + "." + ext;
    var r := Upload(sessionRole, form, id, generated);
    assert ext in AllowedExtensions(role) && role.Some?;
    if role == Some(Preview) {
      assert r == Stored(PublicPreviews, filename, [], "");
      assert f.file.size <= SizeLimit(role) == 10 * MiB;
    } else if role == Some(Problem) {
      assert r == Stored(PrivateFiles, filename, generated,
                         if ext == "hwp" && generated == [] then HwpPreviewWarning else "");
      assert HwpPreviewWarning != "" by {
        assert |HwpPreviewWarning| > 0;
      }
    } else {
      assert r == Stored(PrivateFiles, filename, [], "");
    }
  }

  /** The extension is read after the last dot and compared case-insensitively; a
      name without a dot is taken whole. */
  lemma ExtensionExamples()
    ensures Extension("exam.final.PDF") == "pdf"
    ensures Extension("scan.Hwp") == "hwp"
    ensures Extension("pdf") == "pdf"
  {
    var a, b := "exam.final.PDF", "scan.Hwp";
    assert a[10] == '.' && a[11..] == "PDF";
    assert LastIndexOf(a, '.') == 10;
    assert b[4] == '.' && b[5..] == "Hwp";
    assert LastIndexOf(b, '.') == 4;
    assert LastIndexOf("pdf", '.') == -1;
  }
}
