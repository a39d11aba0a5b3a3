/** The avatar endpoints (backend/app/api/api_v1/endpoints/upload.py): an
    uploaded image becomes the user's avatar, the default avatars are listed
    from their directory, and a listed default may be chosen. The directory
    listing and the file write are oracles. */
module UploadEndpoint {
  import opened Common
  import opened Text
  import opened UsersEndpoint

  const AvatarsPrefix: string := "/static/avatars/"
  const DefaultsPrefix: string := "/static/avatars/defaults/"

  /** `user_<id>_<filename>`, line 28. */
  function StoredName(userId: int, filename: string): (n: string)
    ensures StartsWith(n, "user_")
  {
    StartsWithConcat("user_", IntToString(userId) + "_" + filename);
    "user_" + (IntToString(userId) + "_" + filename)
  }

  /** The accepted content types, line 24. */
  predicate IsImageType(contentType: string)
  {
    StartsWith(contentType, "image/")
  }

  /** `PurePath.suffix` of a file name: from the last dot on, unless that
      dot is the first character or the last. */
  function Suffix(name: string): (s: string)
    ensures s == [] || (s[0] == '.' && '.' !in s[1..] && EndsWith(name, s) && |s| >= 2 && |s| < |name|)
  {
    var tail := AfterLast(name, '.');
    if '.' in name && 0 < |name| - |tail| - 1 && tail != [] then
      assert name[|name| - |tail| - 1..] == ['.'] + tail;
      ['.'] + tail
    else []
  }

  /** `name.ext` has suffix `.ext`; a name whose only dot leads it, or that
      ends in a dot, has none. */
  lemma SuffixOfName(p: string, ext: string)
    requires '.' !in ext
    ensures p != "" && ext != "" ==> Suffix(p + "." + ext) == "." + ext
    ensures Suffix("." + ext) == ""
    ensures Suffix(p + ".") == ""
  {
    AfterLastConcat(p, '.', ext);
    assert (p + "." + ext)[|p|] == '.';
    AfterLastConcat("", '.', ext);
    assert ("" + "." + ext) == "." + ext;
    assert ("." + ext)[0] == '.';
    AfterLastConcat(p, '.', "");
    assert p + "." + "" == p + ".";
    assert (p + ".")[|p|] == '.';
  }

  /** Line 53: the lower-cased suffix is one of the four image suffixes. */
  predicate IsAvatarImage(name: string)
  {
    ToLower(Suffix(name)) in {".png", ".jpg", ".jpeg", ".webp"}
  }

  /** An entry of the defaults directory. */
  datatype DirEntry = DirEntry(name: string, isFile: bool)

  predicate Listed(e: DirEntry)
  {
    e.isFile && IsAvatarImage(e.name)
  }

  /** The URLs of the listed entries among `entries`, in directory order. */
  function DefaultUrls(entries: seq<DirEntry>): (r: seq<string>)
    ensures |r| <= |entries|
  {
    if entries == [] then []
    else
      var init := DefaultUrls(entries[..|entries| - 1]);
      var e := entries[|entries| - 1];
      if Listed(e) then init + [DefaultsPrefix + e.name] else init
  }

  /** Every listed URL names a listed entry of the directory, and carries
      the prefix that selection demands, so any listed default may be
      chosen. */
  lemma {:induction false} DefaultUrlsSelectable(entries: seq<DirEntry>)
    ensures forall u :: u in DefaultUrls(entries) ==>
      && StartsWith(u, DefaultsPrefix)
      && exists e :: e in entries && Listed(e) && u == DefaultsPrefix + e.name
  {
    if entries != [] {
      var init := entries[..|entries| - 1];
      DefaultUrlsSelectable(init);
      var e := entries[|entries| - 1];
      StartsWithConcat(DefaultsPrefix, e.name);
      forall u | u in DefaultUrls(entries)
        ensures StartsWith(u, DefaultsPrefix) && exists e :: e in entries && Listed(e) && u == DefaultsPrefix + e.name
      {
        if u in DefaultUrls(init) {
          var e0 :| e0 in init && Listed(e0) && u == DefaultsPrefix + e0.name;
          assert e0 in entries;
        } else {
          assert e in entries;
        }
      }
    }
  }

  /** `list_default_avatars`, lines 46-54: nothing when the directory is
      missing, otherwise the listed entries' URLs in directory order. */
  method ListDefaultAvatars(dirExists: bool, entries: seq<DirEntry>) returns (urls: seq<string>)
    ensures !dirExists ==> urls == []
    ensures dirExists ==> urls == DefaultUrls(entries)
  {
    urls := [];
    if dirExists {
      for i := 0 to |entries|
        invariant urls == DefaultUrls(entries[..i])
      {
        PrefixSnoc(entries, i);
        var e := entries[i];
        if e.isFile && IsAvatarImage(e.name) {
          urls := urls + [DefaultsPrefix + e.name];
        }
      }
      assert entries[..|entries|] == entries;
    }
  }

  /** `upload_avatar`, lines 18-44, for the signed-in user's own row: a
      content type without `image/` is refused with 400 before anything is
      written, a failed write is a 500, and then only the row's
      `avatar_url` changes, to `/static/avatars/user_<id>_<filename>`. */
  method UploadAvatar(store: UserStore, callerId: int, contentType: string, filename: string, writeOk: bool)
    returns (r: ApiResult<UserRow>)
    requires store.Valid() && IndexOfId(store.rows, callerId).Some?
    modifies store
    ensures store.Valid() && store.nextId == old(store.nextId)
    ensures !IsImageType(contentType) ==> r == Err(400) && store.rows == old(store.rows)
    ensures IsImageType(contentType) && !writeOk ==> r == Err(500) && store.rows == old(store.rows)
    ensures IsImageType(contentType) && writeOk ==>
      var k := IndexOfId(old(store.rows), callerId).value;
      && r == Ok(old(store.rows)[k].(avatarUrl := Some(AvatarsPrefix + StoredName(callerId, filename))))
      && store.rows == old(store.rows)[k := r.value]
  {
    if !StartsWith(contentType, "image/") {
      return Err(400);
    }
    if !writeOk {
      return Err(500);
    }
    r := SetAvatar(store, callerId, AvatarsPrefix + StoredName(callerId, filename));
  }

  /** `select_default_avatar`, lines 56-72: a URL outside the defaults
      directory is refused with 400; otherwise it is stored as given. */
  method SelectDefaultAvatar(store: UserStore, callerId: int, avatarUrl: string) returns (r: ApiResult<UserRow>)
    requires store.Valid() && IndexOfId(store.rows, callerId).Some?
    modifies store
    ensures store.Valid() && store.nextId == old(store.nextId)
    ensures !StartsWith(avatarUrl, DefaultsPrefix) ==> r == Err(400) && store.rows == old(store.rows)
    ensures StartsWith(avatarUrl, DefaultsPrefix) ==>
      var k := IndexOfId(old(store.rows), callerId).value;
      && r == Ok(old(store.rows)[k].(avatarUrl := Some(avatarUrl)))
      && store.rows == old(store.rows)[k := r.value]
  {
    if !StartsWith(avatarUrl, DefaultsPrefix) {
      return Err(400);
    }
    r := SetAvatar(store, callerId, avatarUrl);
  }

  /** `current_user.avatar_url = url` followed by the commit. */
  method SetAvatar(store: UserStore, callerId: int, url: string) returns (r: ApiResult<UserRow>)
    requires store.Valid() && IndexOfId(store.rows, callerId).Some?
    modifies store
    ensures store.Valid() && store.nextId == old(store.nextId)
    ensures var k := IndexOfId(old(store.rows), callerId).value;
      && r == Ok(old(store.rows)[k].(avatarUrl := Some(url)))
      && store.rows == old(store.rows)[k := r.value]
  {
    var k := IndexOfId(store.rows, callerId).value;
    var row := store.rows[k].(avatarUrl := Some(url));
    assert !EmailClash(store.rows, k, row.email);
    ReplaceKeepsUnique(store.rows, k, row);
    store.rows := store.rows[k := row];
    r := Ok(row);
  }

  /** A listed default is accepted by selection. */
  lemma ListedDefaultIsAccepted(entries: seq<DirEntry>, u: string)
    requires u in DefaultUrls(entries)
    ensures StartsWith(u, DefaultsPrefix)
  {
    DefaultUrlsSelectable(entries);
  }
}
