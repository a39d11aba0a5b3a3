/** The student's side of the assignment page
    (frontend/src/pages/AssignmentDetail.tsx): finding the student's own
    submission, the list of attached files, and turning the work in. The
    route's `id` is taken as already parsed; an upload's or a deletion's
    outcome is a parameter, and requests are recorded in the order they are
    sent. */
module AssignmentDetail {
  import opened Common
  import opened Text
  import SubmissionsEndpoint

  /** The page's `Submission` interface, as far as the student's view reads
      it; `content` and `file_urls` may be missing from the record. */
  datatype Submission = Submission(id: int, assignmentId: int, content: Option<string>, fileUrls: Option<seq<string>>)

  /** `k` is the first record for the assignment. */
  predicate FirstFor(subs: seq<Submission>, assignmentId: int, k: int)
  {
    && 0 <= k < |subs|
    && subs[k].assignmentId == assignmentId
    && forall j :: 0 <= j < k ==> subs[j].assignmentId != assignmentId
  }

  /** The `find` of lines 71-73: the first record whose `assignment_id` is
      the route's id. */
  function FindOwn(subs: seq<Submission>, assignmentId: int): (r: Option<Submission>)
    ensures r.None? <==> forall j :: 0 <= j < |subs| ==> subs[j].assignmentId != assignmentId
    ensures r.Some? ==> exists k :: FirstFor(subs, assignmentId, k) && r.value == subs[k]
  {
    if subs == [] then None
    else if subs[0].assignmentId == assignmentId then
      assert FirstFor(subs, assignmentId, 0);
      Some(subs[0])
    else
      var rest := FindOwn(subs[1..], assignmentId);
      assert forall j :: 1 <= j < |subs| ==> subs[j] == subs[1..][j - 1];
      if rest.Some? then
        var k :| FirstFor(subs[1..], assignmentId, k) && rest.value == subs[1..][k];
        assert FirstFor(subs, assignmentId, k + 1);
        rest
      else rest
  }

  /** An attached file as the list shows it. */
  datatype FileEntry = FileEntry(name: string, url: string)

  /** `url.split('/').pop() || ''`: the text after the last slash, the
      whole URL when it has none, and empty when it ends in a slash. */
  function FileName(url: string): (n: string)
    ensures '/' !in n && EndsWith(url, n)
    ensures '/' !in url ==> n == url
  {
    AfterLastWhole(url, '/');
    AfterLast(url, '/')
  }

  /** The stored file name of an upload URL is its last segment. */
  lemma FileNameOfPath(dir: string, name: string)
    requires '/' !in name
    ensures FileName(dir + "/" + name) == name
  {
    AfterLastConcat(dir, '/', name);
  }

  /** Lines 78-83: one entry per URL, named by `FileName`, in URL order. */
  function EntriesOf(urls: seq<string>): (r: seq<FileEntry>)
    ensures |r| == |urls|
    ensures forall i :: 0 <= i < |urls| ==> r[i] == FileEntry(FileName(urls[i]), urls[i])
  {
    seq(|urls|, i requires 0 <= i < |urls| => FileEntry(FileName(urls[i]), urls[i]))
  }

  /** `uploadedFiles.map((f) => f.url)`, the payload's file list. */
  function UrlsOf(files: seq<FileEntry>): (r: seq<string>)
    ensures |r| == |files|
    ensures forall i :: 0 <= i < |files| ==> r[i] == files[i].url
  {
    seq(|files|, i requires 0 <= i < |files| => files[i].url)
  }

  /** Loading a submission and sending its files back gives its URLs in
      their stored order. */
  lemma UrlsOfEntries(urls: seq<string>)
    ensures UrlsOf(EntriesOf(urls)) == urls
  {
  }

  /** One selected file and the URL the backend answered with, or `None`
      when its upload failed. */
  datatype Upload = Upload(name: string, url: Option<string>)

  predicate AllUploaded(ups: seq<Upload>)
  {
    forall i :: 0 <= i < |ups| ==> ups[i].url.Some?
  }

  /** `Promise.all` over the uploads of lines 99-112: the new entries, in
      selection order, named by the selected file's own name. Any failure
      rejects the whole batch. */
  function NewFiles(ups: seq<Upload>): (r: Option<seq<FileEntry>>)
    ensures r.Some? <==> AllUploaded(ups)
    ensures r.Some? ==> |r.value| == |ups|
    ensures r.Some? ==> forall i :: 0 <= i < |ups| ==> r.value[i] == FileEntry(ups[i].name, ups[i].url.value)
  {
    if AllUploaded(ups) then
      Some(seq(|ups|, i requires 0 <= i < |ups| && AllUploaded(ups) => FileEntry(ups[i].name, ups[i].url.value)))
    else None
  }

  /** `uploadedFiles.filter((f) => f.url !== fileUrl)`. */
  function RemoveUrl(files: seq<FileEntry>, url: string): (r: seq<FileEntry>)
    ensures forall f :: f in r <==> f in files && f.url != url
    ensures |r| <= |files|
  {
    if files == [] then []
    else
      var init := RemoveUrl(files[..|files| - 1], url);
      var f := files[|files| - 1];
      assert forall g :: g in files <==> g in files[..|files| - 1] || g == f;
      if f.url != url then init + [f] else init
  }

  /** A list without that URL is left as it is, and removing a URL twice is
      removing it once. */
  lemma RemoveUrlKeepsOthers(files: seq<FileEntry>, url: string)
    ensures (forall i :: 0 <= i < |files| ==> files[i].url != url) ==> RemoveUrl(files, url) == files
    ensures RemoveUrl(RemoveUrl(files, url), url) == RemoveUrl(files, url)
  {
    if forall i :: 0 <= i < |files| ==> files[i].url != url {
      NothingToRemove(files, url);
    }
    var r := RemoveUrl(files, url);
    forall i | 0 <= i < |r|
      ensures r[i].url != url
    {
      assert r[i] in r;
    }
    NothingToRemove(r, url);
  }

  /** Removing a URL keeps the other entries in their order: the filter of
      two lists one after the other is the filter of each, in that order. */
  lemma {:induction false} RemoveUrlConcat(a: seq<FileEntry>, b: seq<FileEntry>, url: string)
    ensures RemoveUrl(a + b, url) == RemoveUrl(a, url) + RemoveUrl(b, url)
    decreases |b|
  {
    if b == [] {
      assert a + b == a;
    } else {
      var init := b[..|b| - 1];
      var f := b[|b| - 1];
      assert (a + b)[..|a + b| - 1] == a + init;
      assert (a + b)[|a + b| - 1] == f;
      RemoveUrlConcat(a, init, url);
    }
  }

  lemma {:induction false} NothingToRemove(files: seq<FileEntry>, url: string)
    requires forall i :: 0 <= i < |files| ==> files[i].url != url
    ensures RemoveUrl(files, url) == files
  {
    if files != [] {
      var init := files[..|files| - 1];
      NothingToRemove(init, url);
      assert init + [files[|files| - 1]] == files;
    }
  }

  /** `sessionStorage.getItem('userRole') || 'student'`, line 48: no stored
      role, or an empty one, reads as student. */
  function PageRole(stored: Option<string>): (r: string)
    ensures r == "student" <==> stored.None? || stored.value == "" || stored.value == "student"
    ensures stored.Some? && stored.value != "" ==> r == stored.value
  {
    if stored.None? || stored.value == "" then "student" else stored.value
  }

  /** The body posted by `handleTurnIn`, lines 147-151. */
  datatype TurnInPayload = TurnInPayload(assignmentId: int, content: string, fileUrls: seq<string>)

  /** Line 140: turning in needs a file or some content; white space counts
      as content. */
  predicate MayTurnIn(files: seq<FileEntry>, content: string)
  {
    files != [] || content != ""
  }

  /** How the backend reads the body (`schemas.SubmissionCreate`). */
  function AsSubmissionCreate(p: TurnInPayload): (c: SubmissionsEndpoint.SubmissionCreate)
    ensures c.assignmentId == p.assignmentId && c.content == Some(p.content) && c.fileUrls == Some(p.fileUrls)
  {
    SubmissionsEndpoint.SubmissionCreate(Some(p.content), Some(p.fileUrls), p.assignmentId)
  }

  /** The delete request of `handleFileDelete` as line 129 writes it:
      `{ data: { file_url } }` puts the URL in the JSON body, where the
      backend never reads it. */
  function DeleteRequestAsWritten(url: string): (r: SubmissionsEndpoint.FileRequest)
    ensures SubmissionsEndpoint.BoundFileUrl(r).None?
    ensures r.body == map["file_url" := url]
  {
    SubmissionsEndpoint.FileRequest(map[], map["file_url" := url])
  }

  /** The delete request this model sends instead: `{ params: { file_url } }`
      puts the URL in the query string, where `delete_submission_file`
      binds it. */
  function DeleteRequest(url: string): (r: SubmissionsEndpoint.FileRequest)
    ensures SubmissionsEndpoint.BoundFileUrl(r) == Some(url)
  {
    SubmissionsEndpoint.FileRequest(map["file_url" := url], map[])
  }

  datatype Request = DeleteFile(req: SubmissionsEndpoint.FileRequest) | TurnIn(payload: TurnInPayload)

  datatype DetailState = DetailState(
    assignmentId: int,
    submission: Option<Submission>,
    content: string,
    files: seq<FileEntry>,
    requests: seq<Request>)

  /** The student branch of `fetchData`, lines 70-84: with no record for the
      assignment nothing changes; else the record's content (or empty) and
      its files become the page's. */
  function Loaded(st: DetailState, subs: seq<Submission>): (r: DetailState)
    ensures FindOwn(subs, st.assignmentId).None? ==> r == st
    ensures FindOwn(subs, st.assignmentId).Some? ==>
      var s := FindOwn(subs, st.assignmentId).value;
      && r.submission == Some(s) && s.assignmentId == st.assignmentId
      && r.content == (if s.content.Some? then s.content.value else "")
      && UrlsOf(r.files) == (if s.fileUrls.Some? then s.fileUrls.value else [])
      && r.requests == st.requests && r.assignmentId == st.assignmentId
  {
    match FindOwn(subs, st.assignmentId)
    case None => st
    case Some(s) =>
      var urls := if s.fileUrls.Some? then s.fileUrls.value else [];
      UrlsOfEntries(urls);
      st.(submission := Some(s), content := if s.content.Some? then s.content.value else "", files := EntriesOf(urls))
  }

  /** `handleFileSelect`: an empty selection or any failed upload leaves the
      list alone; else the new entries follow the old ones. */
  function Selected(st: DetailState, ups: seq<Upload>): (r: DetailState)
    ensures ups == [] || !AllUploaded(ups) ==> r == st
    ensures ups != [] && AllUploaded(ups) ==>
      && r == st.(files := r.files)
      && |r.files| == |st.files| + |ups|
      && r.files[..|st.files|] == st.files
      && forall i :: 0 <= i < |ups| ==> r.files[|st.files| + i] == FileEntry(ups[i].name, ups[i].url.value)
  {
    if ups == [] then st
    else match NewFiles(ups)
      case None => st
      case Some(added) => st.(files := st.files + added)
  }

  /** `handleFileDelete`, lines 125-137: the delete request is sent, and the
      entries go only when it succeeds. */
  function Deleted(st: DetailState, url: string, succeeded: bool): (r: DetailState)
    ensures r.requests == st.requests + [DeleteFile(DeleteRequest(url))]
    ensures succeeded ==> r.files == RemoveUrl(st.files, url)
    ensures !succeeded ==> r.files == st.files
    ensures r.content == st.content && r.submission == st.submission
  {
    var sent := st.(requests := st.requests + [DeleteFile(DeleteRequest(url))]);
    if succeeded then sent.(files := RemoveUrl(st.files, url)) else sent
  }

  /** As written, the backend refuses every delete the page sends (422), so
      the page's `catch` branch runs and no entry is ever removed. */
  lemma AsWrittenDeleteNeverRemoves(st: DetailState, url: string, present: bool)
    ensures SubmissionsEndpoint.DeleteSubmissionFile(DeleteRequestAsWritten(url), present) == Err(422)
    ensures Deleted(st, url, SubmissionsEndpoint.DeleteSubmissionFile(DeleteRequestAsWritten(url), present).Ok?).files == st.files
  {
  }

  /** With the URL in the query string the delete succeeds exactly when the
      file exists, and then the page drops every entry with that URL. */
  lemma DeleteRemovesWhenFileExists(st: DetailState, url: string, present: bool)
    ensures SubmissionsEndpoint.DeleteSubmissionFile(DeleteRequest(url), present).Ok? <==> present
    ensures present ==> Deleted(st, url, SubmissionsEndpoint.DeleteSubmissionFile(DeleteRequest(url), present).Ok?).files == RemoveUrl(st.files, url)
    ensures !present ==> Deleted(st, url, SubmissionsEndpoint.DeleteSubmissionFile(DeleteRequest(url), present).Ok?).files == st.files
  {
  }

  /** `handleTurnIn`, lines 139-151, up to the request: refused without a
      request when there is nothing to hand in. */
  function TurnedIn(st: DetailState): (r: DetailState)
    ensures !MayTurnIn(st.files, st.content) ==> r == st
    ensures MayTurnIn(st.files, st.content) ==>
      r == st.(requests := st.requests + [TurnIn(TurnInPayload(st.assignmentId, st.content, UrlsOf(st.files)))])
  {
    if st.files == [] && st.content == "" then st
    else st.(requests := st.requests + [TurnIn(TurnInPayload(st.assignmentId, st.content, UrlsOf(st.files)))])
  }

  /** Content of white space alone is handed in. */
  lemma BlankContentTurnsIn(st: DetailState)
    requires st.content == " "
    ensures |TurnedIn(st).requests| == |st.requests| + 1
  {
  }

  /** Reloading a handed-in submission and turning it in again sends the
      same files in the same order. */
  lemma ReloadThenTurnInResendsFiles(st: DetailState, subs: seq<Submission>, urls: seq<string>)
    requires FindOwn(subs, st.assignmentId).Some?
    requires FindOwn(subs, st.assignmentId).value.fileUrls == Some(urls) && urls != []
    ensures var r := TurnedIn(Loaded(st, subs));
      && |r.requests| == |st.requests| + 1
      && r.requests[|st.requests|].payload.fileUrls == urls
      && AsSubmissionCreate(r.requests[|st.requests|].payload).fileUrls == Some(urls)
  {
  }

  class DetailPage {
    const assignmentId: int
    var submission: Option<Submission>
    var content: string
    var files: seq<FileEntry>
    var requests: seq<Request>

    function State(): DetailState
      reads this
    {
      DetailState(assignmentId, submission, content, files, requests)
    }

    constructor (routeId: int)
      ensures State() == DetailState(routeId, None, "", [], [])
    {
      assignmentId := routeId;
      submission, content, files, requests := None, "", [], [];
    }

    /** The response of `/submissions/my`. */
    method FetchOwn(subs: seq<Submission>)
      modifies this
      ensures State() == Loaded(old(State()), subs)
    {
      var mine := FindOwn(subs, assignmentId);
      if mine.Some? {
        var s := mine.value;
        submission := Some(s);
        content := if s.content.Some? then s.content.value else "";
        files := EntriesOf(if s.fileUrls.Some? then s.fileUrls.value else []);
      }
    }

    method SetContent(text: string)
      modifies this
      ensures State() == old(State()).(content := text)
    {
      content := text;
    }

    method HandleFileSelect(ups: seq<Upload>)
      modifies this
      ensures State() == Selected(old(State()), ups)
    {
      if |ups| == 0 {
        return;
      }
      var added := NewFiles(ups);
      if added.Some? {
        files := files + added.value;
      }
    }

    method HandleFileDelete(url: string, succeeded: bool)
      modifies this
      ensures State() == Deleted(old(State()), url, succeeded)
    {
      requests := requests + [DeleteFile(DeleteRequest(url))];
      if succeeded {
        files := RemoveUrl(files, url);
      }
    }

    method HandleTurnIn()
      modifies this
      ensures State() == TurnedIn(old(State()))
    {
      if |files| == 0 && content == "" {
        return;
      }
      requests := requests + [TurnIn(TurnInPayload(assignmentId, content, UrlsOf(files)))];
    }
  }
}
