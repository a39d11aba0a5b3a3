/** The file-management endpoints (backend/app/api/api_v1/endpoints/files.py):
    the MIME type of a file name, the admin-only listing of `static`, the
    upload's stored name, and the guards of `delete_file`. The file system
    is an oracle: the walk of the directory tree, whether a path exists and
    whether writing or unlinking succeeds are parameters. */
module FilesEndpoint {
  import opened Common
  import opened Text

  /** The table of `_get_mime_type`, lines 101-110. */
  const MimeTable: map<string, string> := map[
    "jpg" := "image/jpeg",
    "jpeg" := "image/jpeg",
    "png" := "image/png",
    "gif" := "image/gif",
    "pdf" := "application/pdf",
    "doc" := "application/msword",
    "docx" := "application/vnd.openxmlformats-officedocument.wordprocessingml.document",
    "txt" := "text/plain"]

  const DefaultMime: string := "application/octet-stream"

  /** Line 100: the lower-cased text after the last dot, or "" without one. */
  function Extension(filename: string): (ext: string)
    ensures '.' !in filename ==> ext == ""
    ensures '.' in filename ==> ext == ToLower(AfterLast(filename, '.'))
  {
    if '.' in filename then ToLower(AfterLast(filename, '.')) else ""
  }

  /** `_get_mime_type`, lines 98-111. */
  function MimeType(filename: string): (m: string)
    ensures Extension(filename) in MimeTable ==> m == MimeTable[Extension(filename)]
    ensures Extension(filename) !in MimeTable ==> m == DefaultMime
  {
    var ext := Extension(filename);
    if ext in MimeTable then MimeTable[ext] else DefaultMime
  }

  /** The extension of `p.ext` is `ext` lower-cased, whatever precedes the
      last dot. */
  lemma ExtensionOfName(p: string, ext: string)
    requires '.' !in ext
    ensures Extension(p + "." + ext) == ToLower(ext)
  {
    AfterLastConcat(p, '.', ext);
    assert (p + "." + ext)[|p|] == '.';
  }

  /** Only the extension counts: the type of `p.ext` is the table's entry
      for `ext` lower-cased. */
  lemma MimeOfExtension(p: string, ext: string)
    requires '.' !in ext
    ensures MimeType(p + "." + ext) == if ToLower(ext) in MimeTable then MimeTable[ToLower(ext)] else DefaultMime
  {
    ExtensionOfName(p, ext);
  }

  /** A name without a dot has the default type. */
  lemma MimeWithoutDot(name: string)
    requires '.' !in name
    ensures MimeType(name) == DefaultMime
  {
    assert "" !in MimeTable;
  }

  /** Lower-casing twice is lower-casing once. */
  lemma ToLowerIdempotent(s: string)
    ensures ToLower(ToLower(s)) == ToLower(s)
  {
  }

  /** The case of the extension makes no difference. */
  lemma MimeIgnoresCase(p: string, ext: string)
    requires '.' !in ext
    ensures MimeType(p + "." + ext) == MimeType(p + "." + ToLower(ext))
  {
    assert forall i :: 0 <= i < |ext| ==> ToLower(ext)[i] == LowerChar(ext[i]);
    assert '.' !in ToLower(ext);
    ExtensionOfName(p, ext);
    ExtensionOfName(p, ToLower(ext));
    ToLowerIdempotent(ext);
  }

  /** The text after the last `c` of `p + s` is that of `s` when `c` occurs
      in `s`. */
  lemma AfterLastOfSuffix(p: string, s: string, c: char)
    requires c in s
    ensures AfterLast(p + s, c) == AfterLast(s, c)
  {
    AfterLastWhole(s, c);
    var r := AfterLast(s, c);
    var k := |s| - |r| - 1;
    var a := s[..k];
    assert s == a + [c] + r;
    assert p + s == (p + a) + [c] + r;
    AfterLastConcat(p + a, c, r);
  }

  /** A listed file: `{name, path, size, type, uploaded_at}`. */
  datatype FileInfo = FileInfo(name: string, path: string, size: nat, mimeType: string, uploadedAt: string)

  /** What `os.walk` and `stat` report: a directory's path and its files. */
  datatype WalkFile = WalkFile(name: string, size: nat, modified: string)
  datatype WalkDir = WalkDir(root: string, files: seq<WalkFile>)

  /** Lines 26-35 for one file under `root`. */
  function Info(root: string, f: WalkFile): (e: FileInfo)
    ensures e.name == f.name && e.size == f.size && e.uploadedAt == f.modified
    ensures e.path == "/" + root + "/" + f.name && e.mimeType == MimeType(f.name)
  {
    FileInfo(f.name, "/" + root + "/" + f.name, f.size, MimeType(f.name), f.modified)
  }

  function DirListing(d: WalkDir): (r: seq<FileInfo>)
    ensures |r| == |d.files|
    ensures forall k :: 0 <= k < |r| ==> r[k] == Info(d.root, d.files[k])
  {
    seq(|d.files|, k requires 0 <= k < |d.files| => Info(d.root, d.files[k]))
  }

  /** The whole listing: the directories in walk order, each one's files in
      order. */
  function Listing(walk: seq<WalkDir>): seq<FileInfo>
  {
    if walk == [] then [] else Listing(walk[..|walk| - 1]) + DirListing(walk[|walk| - 1])
  }

  function FileCount(walk: seq<WalkDir>): nat
  {
    if walk == [] then 0 else FileCount(walk[..|walk| - 1]) + |walk[|walk| - 1].files|
  }

  /** One entry per walked file, each typed by its own name and placed
      under the directory it was found in. */
  lemma {:induction false} ListingEntries(walk: seq<WalkDir>)
    ensures |Listing(walk)| == FileCount(walk)
    ensures forall e :: e in Listing(walk) ==>
      && e.mimeType == MimeType(e.name)
      && exists d :: d in walk && e.path == "/" + d.root + "/" + e.name
  {
    if walk != [] {
      var init := walk[..|walk| - 1];
      var d := walk[|walk| - 1];
      ListingEntries(init);
      forall e | e in Listing(walk)
        ensures e.mimeType == MimeType(e.name) && exists d :: d in walk && e.path == "/" + d.root + "/" + e.name
      {
        if e in Listing(init) {
          var d0 :| d0 in init && e.path == "/" + d0.root + "/" + e.name;
          assert d0 in walk;
        } else {
          var k :| 0 <= k < |DirListing(d)| && DirListing(d)[k] == e;
          assert d in walk;
        }
      }
    }
  }

  /** `list_files`, lines 15-37: admins only. */
  method ListFiles(role: Role, walk: seq<WalkDir>) returns (r: ApiResult<seq<FileInfo>>)
    ensures role != Admin ==> r == Err(403)
    ensures role == Admin ==> r == Ok(Listing(walk))
  {
    if role != Admin {
      return Err(403);
    }
    var files: seq<FileInfo> := [];
    for i := 0 to |walk|
      invariant files == Listing(walk[..i])
    {
      var d := walk[i];
      for j := 0 to |d.files|
        invariant files == Listing(walk[..i]) + DirListing(d)[..j]
      {
        files := files + [Info(d.root, d.files[j])];
        assert DirListing(d)[..j + 1] == DirListing(d)[..j] + [Info(d.root, d.files[j])];
      }
      assert walk[..i + 1][..i] == walk[..i];
      assert DirListing(d)[..|d.files|] == DirListing(d);
    }
    assert walk[..|walk|] == walk;
    r := Ok(files);
  }

  /** The reply of `upload_file`. */
  datatype Uploaded = Uploaded(path: string, filename: string)

  /** `upload_file`, lines 39-67, with `stamp` the text of
      `datetime.now().timestamp()`: admins only, a failed write is a 500,
      and the file is stored under `static/uploads` as `<stamp>_<name>`. */
  function UploadFile(role: Role, stamp: string, name: string, writeOk: bool): (r: ApiResult<Uploaded>)
    ensures role != Admin ==> r == Err(403)
    ensures role == Admin && !writeOk ==> r == Err(500)
    ensures r.Ok? ==> r.value.filename == stamp + "_" + name && r.value.path == "/static/uploads/" + r.value.filename
  {
    if role != Admin then Err(403)
    else if !writeOk then Err(500)
    else
      var filename := stamp + "_" + name;
      Ok(Uploaded("/static/uploads/" + filename, filename))
  }

  /** An uploaded file whose name has a dot keeps its MIME type. */
  lemma UploadKeepsType(stamp: string, name: string)
    requires '.' in name
    ensures MimeType(stamp + "_" + name) == MimeType(name)
  {
    assert stamp + "_" + name == (stamp + "_") + name;
    AfterLastOfSuffix(stamp + "_", name, '.');
    assert '.' in stamp + "_" + name;
  }

  /** `file_path.lstrip('/')` */
  function StripLeadingSlashes(s: string): (r: string)
    ensures |r| <= |s| && r == s[|s| - |r|..]
    ensures r == [] || r[0] != '/'
    ensures forall i :: 0 <= i < |s| - |r| ==> s[i] == '/'
  {
    if s != [] && s[0] == '/' then StripLeadingSlashes(s[1..]) else s
  }

  /** `s.split('/')` */
  function SplitSlash(s: string): (r: seq<string>)
    ensures |r| >= 1
    ensures forall i :: 0 <= i < |r| ==> '/' !in r[i]
  {
    if s == [] then [""]
    else
      var r := SplitSlash(s[..|s| - 1]);
      if s[|s| - 1] == '/' then r + [""] else r[..|r| - 1] + [r[|r| - 1] + [s[|s| - 1]]]
  }

  /** `"/".join(parts)` */
  function JoinSlash(parts: seq<string>): string
    requires |parts| >= 1
  {
    if |parts| == 1 then parts[0] else JoinSlash(parts[..|parts| - 1]) + "/" + parts[|parts| - 1]
  }

  /** Joining after a last empty piece adds a trailing slash. */
  lemma JoinEmptyLast(r: seq<string>)
    requires |r| >= 1
    ensures JoinSlash(r + [""]) == JoinSlash(r) + "/"
  {
    assert (r + [""])[..|r|] == r;
  }

  /** Joining after a character is added to the last piece adds that
      character at the end. */
  lemma JoinExtendLast(r: seq<string>, c: char)
    requires |r| >= 1
    ensures JoinSlash(r[..|r| - 1] + [r[|r| - 1] + [c]]) == JoinSlash(r) + [c]
  {
    var front := r[..|r| - 1];
    var last := r[|r| - 1];
    var r2 := front + [last + [c]];
    if |r| > 1 {
      var j := JoinSlash(front) + "/";
      assert r2[..|r2| - 1] == front;
      assert JoinSlash(r2) == j + (last + [c]);
      assert JoinSlash(r) == j + last;
      AppendAssoc(j, last, [c]);
    }
  }

  /** Splitting at the slashes and joining again gives the string back. */
  lemma {:induction false} SplitJoin(s: string)
    ensures JoinSlash(SplitSlash(s)) == s
    decreases |s|
  {
    if s != [] {
      var init := s[..|s| - 1];
      SplitJoin(init);
      assert s == init + [s[|s| - 1]];
      if s[|s| - 1] == '/' {
        JoinEmptyLast(SplitSlash(init));
      } else {
        JoinExtendLast(SplitSlash(init), s[|s| - 1]);
      }
    }
  }

  /** The components `pathlib` keeps for a relative path: the pieces
      between slashes, without empty ones and without ".". */
  function Parts(s: string): (r: seq<string>)
    ensures forall i :: 0 <= i < |r| ==> r[i] != "" && r[i] != "." && '/' !in r[i]
  {
    var pieces := SplitSlash(s);
    Keep(pieces)
  }

  function Keep(pieces: seq<string>): (r: seq<string>)
    requires forall i :: 0 <= i < |pieces| ==> '/' !in pieces[i]
    ensures forall i :: 0 <= i < |r| ==> r[i] != "" && r[i] != "." && '/' !in r[i]
  {
    if pieces == [] then []
    else
      var init := Keep(pieces[..|pieces| - 1]);
      var last := pieces[|pieces| - 1];
      if last == "" || last == "." then init else init + [last]
  }

  /** `Path(p).relative_to("static")` succeeds, line 87: the first component
      is `static`. `..` components are not resolved. */
  predicate RelativeToStatic(parts: seq<string>)
  {
    |parts| >= 1 && parts[0] == "static"
  }

  /** Lexical resolution of `..`: a `..` removes the component before it,
      unless there is none or that one is itself a `..`. */
  function Resolve(parts: seq<string>): (r: seq<string>)
    ensures |r| <= |parts|
  {
    if parts == [] then []
    else
      var r := Resolve(parts[..|parts| - 1]);
      var last := parts[|parts| - 1];
      if last == ".." && r != [] && r[|r| - 1] != ".." then r[..|r| - 1] else r + [last]
  }

  /** In a resolved path, `..` occurs only in a leading run. */
  predicate DotDotsLead(r: seq<string>)
  {
    forall i, j :: 0 <= i < j < |r| && r[j] == ".." ==> r[i] == ".."
  }

  lemma {:induction false} ResolveLeadingDotDots(parts: seq<string>)
    ensures DotDotsLead(Resolve(parts))
  {
    if parts != [] {
      var init := parts[..|parts| - 1];
      ResolveLeadingDotDots(init);
      var r0 := Resolve(init);
      var last := parts[|parts| - 1];
      var r := Resolve(parts);
      if last == ".." && r0 != [] && r0[|r0| - 1] != ".." {
        assert r == r0[..|r0| - 1];
      } else if last == ".." {
        assert r == r0 + [".."];
        assert forall i :: 0 <= i < |r0| ==> r0[i] == "..";
      } else {
        assert r == r0 + [last];
      }
    }
  }

  /** A path without `..` resolves to itself. */
  lemma {:induction false} ResolveWithoutDotDots(parts: seq<string>)
    requires ".." !in parts
    ensures Resolve(parts) == parts
  {
    if parts != [] {
      var init := parts[..|parts| - 1];
      assert forall i :: 0 <= i < |init| ==> init[i] == parts[i];
      assert ".." !in init;
      ResolveWithoutDotDots(init);
      assert parts[|parts| - 1] != "..";
      assert init + [parts[|parts| - 1]] == parts;
    }
  }

  /** The intended containment check: the path, once `..` is resolved,
      starts at `static`. */
  predicate UnderStatic(parts: seq<string>)
  {
    RelativeToStatic(Resolve(parts))
  }

  /** What the corrected check admits lies inside `static`: its resolved
      form starts there and climbs out nowhere. */
  lemma UnderStaticStaysInside(parts: seq<string>)
    requires UnderStatic(parts)
    ensures var r := Resolve(parts); r[0] == "static" && ".." !in r
  {
    ResolveLeadingDotDots(parts);
    var r := Resolve(parts);
    forall j | 0 <= j < |r|
      ensures r[j] != ".."
    {
      if j > 0 {
        assert r[0] != "..";
      }
    }
  }

  /** For a path without `..`, both checks agree. */
  lemma ChecksAgreeWithoutDotDots(parts: seq<string>)
    requires ".." !in parts
    ensures RelativeToStatic(parts) <==> UnderStatic(parts)
  {
    ResolveWithoutDotDots(parts);
  }

  /** The check as written lets `static/../<name>` through, although it
      names a file beside `static`, not inside it. */
  lemma TraversalPassesCheck(name: string)
    requires name != "" && name != "." && name != ".." && name != "static" && '/' !in name
    ensures var parts := ["static", "..", name];
      RelativeToStatic(parts) && Resolve(parts) == [name] && !UnderStatic(parts)
  {
    var parts := ["static", "..", name];
    assert parts[..1] == ["static"];
    assert parts[..2] == ["static", ".."];
    assert Resolve(["static"]) == ["static"] by {
      assert ["static"][..0] == [];
    }
    assert Resolve(["static", ".."]) == [];
  }

  /** `delete_file`, lines 69-96, with the file system's answers `present`
      (does the stripped path exist) and `unlinkOk`. The admin check comes
      first, then existence (404), then containment (403), then the unlink
      (500 on failure). The result is the resolved path removed.
      Containment is the resolved check `UnderStatic` (see README). */
  function DeleteFile(role: Role, filePath: string, present: bool, unlinkOk: bool): (r: ApiResult<seq<string>>)
    ensures role != Admin ==> r == Err(403)
    ensures role == Admin && !present ==> r == Err(404)
    ensures role == Admin && present && !UnderStatic(Parts(StripLeadingSlashes(filePath))) ==> r == Err(403)
    ensures role == Admin && present && UnderStatic(Parts(StripLeadingSlashes(filePath))) ==>
      r == if unlinkOk then Ok(Resolve(Parts(StripLeadingSlashes(filePath)))) else Err(500)
    ensures r.Ok? ==> r.value[0] == "static" && ".." !in r.value
  {
    if role != Admin then Err(403)
    else
      var parts := Parts(StripLeadingSlashes(filePath));
      if !present then Err(404)
      else if !UnderStatic(parts) then Err(403)
      else if !unlinkOk then Err(500)
      else
        UnderStaticStaysInside(parts);
        Ok(Resolve(parts))
  }

  /** Leading slashes make no difference to a deletion. */
  lemma DeleteIgnoresLeadingSlashes(role: Role, p: string, present: bool, unlinkOk: bool)
    ensures DeleteFile(role, "/" + p, present, unlinkOk) == DeleteFile(role, p, present, unlinkOk)
  {
    assert ("/" + p)[1..] == p;
  }
}
