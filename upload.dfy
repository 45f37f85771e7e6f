/** The upload reconciler's rules: which media are sent, what each send looks like,
    and what each outcome writes back on the media record. The network is an oracle
    `send` that answers each request. */
module Upload {
  import opened Base
  import opened Strings
  import opened Records

  /** The most media one run attempts. */
  const BatchSize: nat := 12

  /** What the network answers: an HTTP status, or a thrown error (its name and message). */
  datatype Response = Http(status: nat) | NetworkError(name: string, message: string)

  /** The multipart POST: the media id, inspection id and tag fields and the file part
      (the payload, named after the media id). */
  datatype UploadRequest = UploadRequest(
    url: string, mediaId: string, inspectionId: string, tag: string,
    file: Option<seq<Byte>>, fileName: string)

  /** The result of a run: `{ok:false, reason:"no-endpoint"}` or `{ok:true, uploaded}`. */
  datatype Report = NoEndpoint | Done(uploaded: nat)

  /** Media waiting to be sent: not uploaded, with a payload and a mime type, not audio. */
  predicate Eligible(m: Media)
  {
    !m.uploaded && m.blob.Some? && m.mime != "" && m.tag != "audio"
  }

  /** A successful attempt takes the record out of the pending set; a failed one leaves
      it as pending as it was, since only the error text changes. */
  lemma SettleEligible(m: Media, outcome: Option<string>)
    ensures outcome.None? ==> !Eligible(Settle(m, outcome))
    ensures outcome.Some? ==> (Eligible(Settle(m, outcome)) <==> Eligible(m))
  {
  }

  /** The media one run attempts: the first eligible ones, at most `BatchSize`. */
  function Batch(ms: seq<Media>): (r: seq<Media>)
    ensures |r| <= BatchSize
    ensures |Filter(ms, Eligible)| <= BatchSize ==> r == Filter(ms, Eligible)
    ensures |Filter(ms, Eligible)| > BatchSize ==> |r| == BatchSize
    ensures forall i :: 0 <= i < |r| ==> r[i] == Filter(ms, Eligible)[i]
    ensures forall m :: m in r ==> m in ms && Eligible(m)
  {
    var pending := Filter(ms, Eligible);
    pending[..Min(BatchSize, |pending|)]
  }

  predicate EndsWithSlash(s: string)
  {
    |s| > 0 && s[|s| - 1] == '/'
  }

  /** `endpoint.replace(/\/$/, "") + "/upload"`: exactly one trailing slash is removed.
      A setting that is not text has no `replace`, so building the address fails. */
  function UploadUrl(endpoint: SettingValue): (r: Result<string>)
    ensures endpoint.Choices? ==> r.Err?
    ensures endpoint.Text? ==> r.Ok? && |r.value| >= 7 && r.value[|r.value| - 7..] == "/upload"
    ensures endpoint.Text? ==>
      r.value[..|r.value| - 7] + (if EndsWithSlash(endpoint.text) then "/" else "") == endpoint.text
  {
    match endpoint
    case Choices(_) => Err("endpoint.replace is not a function")
    case Text(s) =>
      var base := if EndsWithSlash(s) then s[..|s| - 1] else s;
      var url := base + "/upload";
      assert url[..|url| - 7] == base && url[|url| - 7..] == "/upload";
      Ok(url)
  }

  /** The request sent for a media record: the record's id, inspection and tag fields,
      and its payload as a file named after the id with a `.jpg` extension. */
  function Request(url: string, m: Media): (r: UploadRequest)
    ensures r.url == url && r.mediaId == m.id && r.inspectionId == m.inspectionId && r.tag == m.tag
    ensures r.file == m.blob
    ensures |r.fileName| == |m.id| + 4 && r.fileName[..|m.id|] == m.id && r.fileName[|m.id|..] == ".jpg"
  {
    UploadRequest(url, m.id, m.inspectionId, m.tag, m.blob, m.id + ".jpg")
  }

  /** The outcome of one attempt: None when the upload succeeded, otherwise the error
      text stored on the record (`HTTP <status>`, or the thrown error's message, or its
      name when the message is empty). */
  function Outcome(url: Result<string>, m: Media, send: UploadRequest -> Response): (r: Option<string>)
    ensures r.None? <==> url.Ok? && send(Request(url.value, m)).Http?
                         && 200 <= send(Request(url.value, m)).status <= 299
    ensures url.Ok? && send(Request(url.value, m)).Http? && r.Some? ==>
      |r.value| > 5 && r.value[..5] == "HTTP " && ParseRadix(r.value[5..], 10) == send(Request(url.value, m)).status
    ensures url.Err? ==> r == Some(url.message)
    ensures url.Ok? && send(Request(url.value, m)).Http? && r.Some? ==>
      r.value == "HTTP " + Decimal(send(Request(url.value, m)).status)
    ensures url.Ok? && send(Request(url.value, m)).NetworkError? ==>
      var e := send(Request(url.value, m));
      r == Some(if e.message != "" then e.message else e.name)
  {
    match url
    case Err(e) => Some(e)
    case Ok(u) =>
      match send(Request(u, m))
      case Http(status) =>
        if 200 <= status <= 299 then None
        else
          ParseRadixInverts(status, 10);
          assert ("HTTP " + Decimal(status))[5..] == Decimal(status);
          Some("HTTP " + Decimal(status))
      case NetworkError(name, message) => Some(if message != "" then message else name)
  }

  /** The record written back after an attempt: on success it is marked uploaded and its
      error cleared; on failure only the error text is recorded. */
  function Settle(m: Media, outcome: Option<string>): (r: Media)
    ensures outcome.None? ==> r.uploaded && r.uploadError == ""
    ensures outcome.Some? ==> r.uploaded == m.uploaded && r.uploadError == outcome.value
    ensures r == m.(uploaded := r.uploaded, uploadError := r.uploadError)
  {
    match outcome
    case None => m.(uploaded := true, uploadError := "")
    case Some(e) => m.(uploadError := e)
  }

  function Ids(batch: seq<Media>): set<string>
  {
    set m | m in batch :: m.id
  }

  /** The media store after a run over `batch`: each attempted record carries its own
      outcome; every other record is as it was. */
  function Settled(rows: map<string, Media>, batch: seq<Media>, url: Result<string>,
                   send: UploadRequest -> Response): map<string, Media>
  {
    map k | k in rows :: if k in Ids(batch) then Settle(rows[k], Outcome(url, rows[k], send)) else rows[k]
  }

  /** A run over an empty batch writes nothing. */
  lemma SettledNothing(rows: map<string, Media>, url: Result<string>, send: UploadRequest -> Response)
    ensures Settled(rows, [], url, send) == rows
  {
    assert Ids([]) == {};
  }

  /** Settling one more record of the batch updates only that record. */
  lemma SettledStep(rows: map<string, Media>, batch: seq<Media>, url: Result<string>,
                    send: UploadRequest -> Response)
    requires batch != [] && batch[|batch| - 1].id in rows
    ensures var k := batch[|batch| - 1].id;
      Settled(rows, batch, url, send)
        == Settled(rows, batch[..|batch| - 1], url, send)[k := Settle(rows[k], Outcome(url, rows[k], send))]
  {
    var init := batch[..|batch| - 1];
    assert batch == init + [batch[|batch| - 1]];
    assert Ids(batch) == Ids(init) + {batch[|batch| - 1].id};
  }

  /** The media store after attempting `batch` in order: each attempt writes back the
      record as it was read, carrying its own outcome. */
  function Run(rows: map<string, Media>, batch: seq<Media>, url: Result<string>,
               send: UploadRequest -> Response): map<string, Media>
  {
    if batch == [] then rows
    else
      var m := batch[|batch| - 1];
      Run(rows, batch[..|batch| - 1], url, send)[m.id := Settle(m, Outcome(url, m, send))]
  }

  /** When every record of the batch is the one stored under its id, the writes one
      after another leave the store as the all-at-once description says (repeated ids
      included: they are the same record, settled the same way). */
  lemma {:induction false} RunIsSettled(rows: map<string, Media>, batch: seq<Media>, url: Result<string>,
                                        send: UploadRequest -> Response)
    requires forall j :: 0 <= j < |batch| ==> batch[j].id in rows && rows[batch[j].id] == batch[j]
    ensures Run(rows, batch, url, send) == Settled(rows, batch, url, send)
  {
    if batch == [] {
      SettledNothing(rows, url, send);
    } else {
      RunIsSettled(rows, batch[..|batch| - 1], url, send);
      SettledStep(rows, batch, url, send);
    }
  }

  /** How many attempts of the batch succeeded. */
  function Successes(batch: seq<Media>, url: Result<string>, send: UploadRequest -> Response): (n: nat)
    ensures n <= |batch|
    ensures n == |batch| ==> forall m :: m in batch ==> Outcome(url, m, send).None?
  {
    if batch == [] then 0
    else
      var init := batch[..|batch| - 1];
      assert forall m :: m in batch ==> m in init || m == batch[|batch| - 1];
      Successes(init, url, send) + if Outcome(url, batch[|batch| - 1], send).None? then 1 else 0
  }

  /** Every attempt succeeding is exactly what makes the count the whole batch. */
  lemma {:induction false} SuccessesAll(batch: seq<Media>, url: Result<string>, send: UploadRequest -> Response)
    ensures Successes(batch, url, send) == |batch| <==> forall m :: m in batch ==> Outcome(url, m, send).None?
  {
    if batch != [] {
      var init := batch[..|batch| - 1];
      assert batch == init + [batch[|batch| - 1]];
      SuccessesAll(init, url, send);
    }
  }

  /** The ids of the records of `batch` that pass `ok`. */
  function IdsWhere(batch: seq<Media>, ok: Media -> bool): set<string>
  {
    set m | m in batch && ok(m) :: m.id
  }

  /** How many records of `batch` pass `ok`, counted one position at a time. */
  function CountWhere(batch: seq<Media>, ok: Media -> bool): nat
  {
    if batch == [] then 0
    else CountWhere(batch[..|batch| - 1], ok) + if ok(batch[|batch| - 1]) then 1 else 0
  }

  /** The count of successes is the count of records whose attempt succeeded. */
  lemma {:induction false} SuccessesIsCount(batch: seq<Media>, url: Result<string>,
                                            send: UploadRequest -> Response)
    ensures Successes(batch, url, send) == CountWhere(batch, m => Outcome(url, m, send).None?)
  {
    if batch != [] {
      SuccessesIsCount(batch[..|batch| - 1], url, send);
    }
  }

  /** No id occurs twice in the batch. */
  predicate DistinctIds(batch: seq<Media>)
  {
    forall a, b :: 0 <= a < b < |batch| ==> batch[a].id != batch[b].id
  }

  /** The last record adds its id to the passing ones when it passes. */
  lemma IdsWhereLast(batch: seq<Media>, ok: Media -> bool)
    requires batch != []
    ensures var last := batch[|batch| - 1];
      IdsWhere(batch, ok) == IdsWhere(batch[..|batch| - 1], ok) + (if ok(last) then {last.id} else {})
  {
    var init := batch[..|batch| - 1];
    assert batch == init + [batch[|batch| - 1]];
    assert forall m :: m in batch <==> m in init || m == batch[|batch| - 1];
  }

  /** Without the last record the batch still has no repeated id, and none of its ids is
      the last record's. */
  lemma DistinctInit(batch: seq<Media>)
    requires batch != [] && DistinctIds(batch)
    ensures DistinctIds(batch[..|batch| - 1])
    ensures forall a :: 0 <= a < |batch| - 1 ==> batch[a].id != batch[|batch| - 1].id
  {
  }

  /** An id no record of the batch carries is not among the passing ones. */
  lemma NotInIdsWhere(batch: seq<Media>, id: string, ok: Media -> bool)
    requires forall a :: 0 <= a < |batch| ==> batch[a].id != id
    ensures id !in IdsWhere(batch, ok)
  {
    forall m | m in batch ensures m.id != id {
      var a :| 0 <= a < |batch| && batch[a] == m;
    }
  }

  /** Over a batch without repeated ids, counting positions equals counting ids. */
  lemma {:induction false} CountWhereIsIds(batch: seq<Media>, ok: Media -> bool)
    requires DistinctIds(batch)
    ensures CountWhere(batch, ok) == |IdsWhere(batch, ok)|
  {
    if batch == [] {
      assert IdsWhere(batch, ok) == {};
    } else {
      var init := batch[..|batch| - 1];
      var last := batch[|batch| - 1];
      DistinctInit(batch);
      CountWhereIsIds(init, ok);
      NotInIdsWhere(init, last.id, ok);
      IdsWhereLast(batch, ok);
      var done := IdsWhere(init, ok);
      if ok(last) {
        assert |done + {last.id}| == |done| + 1;
      } else {
        assert done + {} == done;
      }
    }
  }

  /** The count a run reports is the number of records that run marked uploaded: for a
      batch of stored, not yet uploaded records without repeated ids, the successes are
      exactly the batch ids whose record is uploaded afterwards. */
  lemma SuccessesCountUploaded(rows: map<string, Media>, batch: seq<Media>, url: Result<string>,
                               send: UploadRequest -> Response)
    requires forall j :: 0 <= j < |batch| ==>
      batch[j].id in rows && rows[batch[j].id] == batch[j] && !batch[j].uploaded
    requires DistinctIds(batch)
    ensures var after := Settled(rows, batch, url, send);
      Successes(batch, url, send) == |set k | k in after && k in Ids(batch) && after[k].uploaded|
  {
    var ok := m => Outcome(url, m, send).None?;
    SuccessesIsCount(batch, url, send);
    CountWhereIsIds(batch, ok);
    var after := Settled(rows, batch, url, send);
    forall j | 0 <= j < |batch|
      ensures batch[j].id in after && (after[batch[j].id].uploaded <==> ok(batch[j]))
    {
      SettledUploaded(rows, batch, j, url, send);
    }
    MarkedAreIdsWhere(after, batch, ok);
  }

  /** When each batch record's entry in `after` is uploaded exactly when the record
      passes `ok`, the uploaded batch ids are the ids of the passing records. */
  lemma MarkedAreIdsWhere(after: map<string, Media>, batch: seq<Media>, ok: Media -> bool)
    requires forall j :: 0 <= j < |batch| ==>
      batch[j].id in after && (after[batch[j].id].uploaded <==> ok(batch[j]))
    ensures (set k | k in after && k in Ids(batch) && after[k].uploaded) == IdsWhere(batch, ok)
  {
    var marked := set k | k in after && k in Ids(batch) && after[k].uploaded;
    forall k | k in marked ensures k in IdsWhere(batch, ok) {
      var m :| m in batch && m.id == k;
      var j :| 0 <= j < |batch| && batch[j] == m;
    }
    forall k | k in IdsWhere(batch, ok) ensures k in marked {
      var m :| m in batch && ok(m) && m.id == k;
      var j :| 0 <= j < |batch| && batch[j] == m;
    }
  }

  /** A stored record of the batch that was not uploaded is uploaded after the run
      exactly when its attempt succeeded. */
  lemma SettledUploaded(rows: map<string, Media>, batch: seq<Media>, j: nat, url: Result<string>,
                        send: UploadRequest -> Response)
    requires j < |batch| && batch[j].id in rows && rows[batch[j].id] == batch[j] && !batch[j].uploaded
    ensures batch[j].id in Ids(batch) && batch[j].id in Settled(rows, batch, url, send)
    ensures Settled(rows, batch, url, send)[batch[j].id].uploaded <==> Outcome(url, batch[j], send).None?
  {
    assert batch[j] in batch;
  }

  /** A run that attempted every eligible record and succeeded each time leaves nothing
      eligible: running again uploads nothing. */
  lemma RerunFindsNothing(rows: map<string, Media>, ms: seq<Media>, url: Result<string>,
                          send: UploadRequest -> Response)
    requires forall m :: m in ms <==> m in rows.Values
    requires forall k :: k in rows ==> rows[k].id == k
    requires |Filter(ms, Eligible)| <= BatchSize
    requires Successes(Batch(ms), url, send) == |Batch(ms)|
    ensures forall k :: k in Settled(rows, Batch(ms), url, send) ==> !Eligible(Settled(rows, Batch(ms), url, send)[k])
  {
    var batch := Batch(ms);
    var after := Settled(rows, batch, url, send);
    forall k | k in after ensures !Eligible(after[k]) {
      if k in Ids(batch) {
        var m :| m in batch && m.id == k;
        assert rows[k] == m by {
          assert m in rows.Values;
        }
      } else {
        assert rows[k] in rows.Values;
        assert !(rows[k] in batch);
      }
    }
  }
}
