/** The upload middleware: which files are accepted, which folder each one is
    stored in, and the name it is stored under. */
module Upload {
  import opened Http
  import opened Strings
  import opened Numbers

  /** A file as the client sends it. */
  datatype IncomingFile = IncomingFile(originalname: string, mimetype: string)

  /** A file after the middleware has stored it. */
  datatype StoredFile = StoredFile(originalname: string, mimetype: string, destination: string, filename: string)

  const AllowedTypes: seq<string> := [
    "image/jpeg", "image/png", "image/gif", "image/webp",
    "application/pdf",
    "video/mp4", "video/webm", "video/ogg",
    "audio/mpeg", "audio/wav", "audio/ogg"
  ]

  const MiscFolder := "uploads/misc"

  /** The file filter: a file is accepted exactly when its MIME type is listed. */
  function FileFilter(mimetype: string): (r: Outcome<bool>)
    ensures r.Ok? <==> mimetype in AllowedTypes
    ensures r.Ok? ==> r.value
    ensures r.Fail? ==> r.message == "Unsupported file type: " + mimetype
  {
    if mimetype in AllowedTypes then Ok(true)
    else Fail(ServerError, "Unsupported file type: " + mimetype)
  }

  /** The storage destination, chosen by the first matching MIME rule. */
  function Destination(mimetype: string): (folder: string)
    ensures folder == MiscFolder <==>
              !("image/" <= mimetype) && mimetype != "application/pdf" && !("video/" <= mimetype) && !("audio/" <= mimetype)
  {
    if "image/" <= mimetype then "uploads/images"
    else if mimetype == "application/pdf" then "uploads/pdfs"
    else if "video/" <= mimetype then "uploads/videos"
    else if "audio/" <= mimetype then "uploads/audio"
    else MiscFolder
  }

  /** A prefix test fails as soon as one character differs. */
  lemma NotPrefixAt(p: string, s: string, i: nat)
    requires i < |p| && i < |s| && p[i] != s[i]
    ensures !(p <= s)
  {
  }

  /** Each prefix rule picks its own folder, whatever the type. */
  lemma DestinationByPrefix(mimetype: string)
    ensures "image/" <= mimetype <==> Destination(mimetype) == "uploads/images"
    ensures Destination(mimetype) == "uploads/videos" ==> "video/" <= mimetype
    ensures Destination(mimetype) == "uploads/audio" ==> "audio/" <= mimetype
  {
  }

  /** Every accepted type has a folder of its own kind, never the misc folder. */
  lemma AcceptedTypesHaveFolders(mimetype: string)
    requires mimetype in AllowedTypes
    ensures Destination(mimetype) != MiscFolder
    ensures "image/" <= mimetype <==> Destination(mimetype) == "uploads/images"
    ensures "video/" <= mimetype <==> Destination(mimetype) == "uploads/videos"
    ensures "audio/" <= mimetype <==> Destination(mimetype) == "uploads/audio"
  {
    DestinationByPrefix(mimetype);
    var m := mimetype;
    if m[0] == 'i' {
      assert "image/" <= m;
    } else if m == "application/pdf" {
      NotPrefixAt("image/", m, 0);
      NotPrefixAt("video/", m, 0);
      NotPrefixAt("audio/", m, 1);
    } else if m[0] == 'v' {
      NotPrefixAt("image/", m, 0);
      NotPrefixAt("audio/", m, 0);
      assert "video/" <= m;
    } else {
      NotPrefixAt("image/", m, 0);
      NotPrefixAt("video/", m, 0);
      assert "audio/" <= m;
    }
  }

  /** Only application/pdf is stored among the PDFs. */
  lemma PdfFolderIsForPdfOnly(mimetype: string)
    ensures Destination(mimetype) == "uploads/pdfs" <==> mimetype == "application/pdf"
  {
    if mimetype == "application/pdf" {
      NotPrefixAt("image/", mimetype, 0);
    }
  }

  /** path.extname for a file name without '/': from the last '.' on, unless
      that '.' starts the name or the name is "..". */
  function Extname(name: string): (ext: string)
    ensures ext == [] || (|ext| < |name| && ext == name[|name| - |ext|..] && ext[0] == '.')
    ensures '.' !in name ==> ext == []
  {
    var k := LastIndexOf(name, '.');
    if k <= 0 || name == ".." then [] else name[k..]
  }

  /** path.basename(name, ext) for a file name without '/'. */
  function Basename(name: string, ext: string): string {
    if ext == [] then name
    else if ext == name then []
    else if |ext| <= |name| && name[|name| - |ext|..] == ext then name[..|name| - |ext|]
    else name
  }

  /** Cutting the extension off and putting it back gives the name again. */
  lemma NameAndExtension(name: string)
    ensures Basename(name, Extname(name)) + Extname(name) == name
  {
  }

  /** The unique suffix: the upload time, '-', and a random integer. */
  function UniqueSuffix(nowMs: nat, random: nat): string {
    NatToDecimal(nowMs) + "-" + NatToDecimal(random)
  }

  lemma UniqueSuffixHasNoDot(nowMs: nat, random: nat)
    ensures '.' !in UniqueSuffix(nowMs, random)
  {
    var a := NatToDecimal(nowMs);
    var b := NatToDecimal(random);
    assert forall i :: 0 <= i < |a| ==> IsDigit(a[i]);
    assert forall i :: 0 <= i < |b| ==> IsDigit(b[i]);
    var s := UniqueSuffix(nowMs, random);
    forall i | 0 <= i < |s| ensures s[i] != '.' {
      if i < |a| {
        assert s[i] == a[i];
      } else if i > |a| {
        assert s[i] == b[i - |a| - 1];
      }
    }
  }

  /** The stored file name: name without its extension, '-', suffix, extension. */
  function StoredFilename(originalname: string, suffix: string): (name: string)
    ensures |name| == |originalname| + 1 + |suffix|
    ensures var ext := Extname(originalname); name[|name| - |ext|..] == ext
  {
    NameAndExtension(originalname);
    var ext := Extname(originalname);
    Basename(originalname, ext) + "-" + suffix + ext
  }

  /** Where the last occurrence of a character in a concatenation lies. */
  lemma {:induction false} LastIndexOfConcat(a: string, b: string, ch: char)
    ensures LastIndexOf(a + b, ch) == if ch in b then |a| + LastIndexOf(b, ch) else LastIndexOf(a, ch)
    decreases |b|
  {
    if b == [] {
      assert a + b == a;
    } else {
      var last := b[|b| - 1];
      var init := b[..|b| - 1];
      assert (a + b)[..|a + b| - 1] == a + init;
      assert b == init + [last];
      LastIndexOfConcat(a, init, ch);
    }
  }

  /** The stored name keeps the extension of the original name (the name ".."
      is the one exception: it has no extension, but its stored name does). */
  lemma StoredFilenameKeepsExtension(originalname: string, suffix: string)
    requires '.' !in suffix
    requires originalname != ".."
    ensures Extname(StoredFilename(originalname, suffix)) == Extname(originalname)
  {
    if Extname(originalname) == [] {
      NoExtensionKept(originalname, suffix);
    } else {
      ExtensionKept(originalname, suffix);
    }
  }

  lemma NoExtensionKept(originalname: string, suffix: string)
    requires '.' !in suffix
    requires originalname != ".." && Extname(originalname) == []
    ensures Extname(StoredFilename(originalname, suffix)) == []
  {
    var tail := "-" + suffix;
    assert '.' !in tail;
    assert StoredFilename(originalname, suffix) == originalname + tail;
    LastIndexOfConcat(originalname, tail, '.');
  }

  lemma ExtensionKept(originalname: string, suffix: string)
    requires '.' !in suffix
    requires originalname != ".." && Extname(originalname) != []
    ensures Extname(StoredFilename(originalname, suffix)) == Extname(originalname)
  {
    var ext := Extname(originalname);
    var x := Basename(originalname, ext) + "-" + suffix;
    assert StoredFilename(originalname, suffix) == x + ext;
    ExtensionHasOneDot(originalname);
    LastIndexOfConcat(x, ext, '.');
    assert |x| >= 1;
  }

  /** The extension's dot is the only one in it. */
  lemma ExtensionHasOneDot(name: string)
    requires Extname(name) != []
    ensures LastIndexOf(Extname(name), '.') == 0
  {
    var ext := Extname(name);
    var k := LastIndexOf(name, '.');
    assert ext == name[k..];
    LastIndexOfConcat([], ext, '.');
    assert forall j :: 0 < j < |ext| ==> ext[j] == name[k + j];
  }

  /** The middleware as a whole: no file passes through, a refused type is an
      error, an accepted one is stored in its folder under its unique name. */
  function Receive(file: Option<IncomingFile>, suffix: string): (r: Outcome<Option<StoredFile>>)
    ensures file.None? ==> r == Ok(None)
    ensures file.Some? ==> (r.Ok? <==> file.value.mimetype in AllowedTypes)
    ensures r.Ok? && r.value.Some? ==>
              && file.Some?
              && r.value.value.originalname == file.value.originalname
              && r.value.value.mimetype == file.value.mimetype
              && r.value.value.destination == Destination(file.value.mimetype)
              && r.value.value.destination != MiscFolder
              && r.value.value.filename == StoredFilename(file.value.originalname, suffix)
  {
    match file
    case None => Ok(None)
    case Some(f) =>
      match FileFilter(f.mimetype)
      case Fail(status, message) => Fail(status, message)
      case Ok(_) =>
        AcceptedTypesHaveFolders(f.mimetype);
        Ok(Some(StoredFile(f.originalname, f.mimetype, Destination(f.mimetype), StoredFilename(f.originalname, suffix))))
  }
}
