/** The like and download counters of main.js: each posts the image name to a
    PHP endpoint and shows the count it returns; when that fails in any way, a
    counter kept in `localStorage` is bumped and shown instead. */
module Counters {
  import opened JsStrings
  import opened JsNumbers
  import opened Browser

  /** The parsed JSON body of a reply, as far as the handlers look at it: whether
      `data` is truthy, whether `data.error` is truthy, and the text of the count
      field (`likes` or `downloads`) when it is defined. */
  datatype Body = InvalidJson | Json(truthy: bool, errorTruthy: bool, count: Option<string>)

  /** How the POST settles: rejected, or a response with its `ok` flag and body. */
  datatype Reply = NetworkError | Answer(ok: bool, body: Body)

  /** The page state the handlers touch: `localStorage`, and the text of the counter
      elements by their id (an id absent from `labels` has no element). */
  datatype Page = Page(storage: map<string, string>, labels: map<string, string>)

  const LikeEndpoint := "like.php"
  const DownloadEndpoint := "download_count.php"

  function LikeKey(imageName: string): string {
    "local_like_count:" + imageName
  }

  function DownloadKey(imageName: string): string {
    "local_download_count:" + imageName
  }

  /** The count the endpoint returned, when the reply is a success: an OK response
      whose JSON is truthy, has no truthy `error` and defines the count. */
  function RemoteCount(reply: Reply): (r: Option<string>)
    ensures r.Some? <==> reply.Answer? && reply.ok && reply.body.Json?
                         && reply.body.truthy && !reply.body.errorTruthy && reply.body.count.Some?
  {
    match reply
    case Answer(true, Json(true, false, Some(c))) => Some(c)
    case _ => None
  }

  /** `Number(localStorage.getItem(key) || 0)`: a missing or empty entry counts as 0. */
  function StoredCount(storage: map<string, string>, key: string): Num {
    if key !in storage || storage[key] == "" then Finite(0) else ToNumber(storage[key])
  }

  /** The `catch` branch: the stored count plus one, written back with `String`. */
  function Bumped(storage: map<string, string>, key: string): map<string, string> {
    storage[key := NumToString(Increment(StoredCount(storage, key)))]
  }

  /** `counterEl.innerText = text` when the element exists. */
  function Show(labels: map<string, string>, id: string, text: string): map<string, string> {
    if id in labels then labels[id := text] else labels
  }

  /** The page after a counter request for `key` answered `reply`. */
  function Counted(p: Page, key: string, id: string, reply: Reply): Page {
    match RemoteCount(reply)
    case Some(c) => p.(labels := Show(p.labels, id, c))
    case None =>
      var storage := Bumped(p.storage, key);
      Page(storage, Show(p.labels, id, storage[key]))
  }

  /** A success shows the remote count and leaves storage alone. */
  lemma RemoteSuccess(p: Page, key: string, id: string, reply: Reply)
    requires RemoteCount(reply).Some?
    ensures Counted(p, key, id, reply).storage == p.storage
    ensures id in p.labels ==> Counted(p, key, id, reply).labels == p.labels[id := RemoteCount(reply).value]
    ensures id !in p.labels ==> Counted(p, key, id, reply).labels == p.labels
  {
  }

  /** Any failure stores the old count plus one, which reads back as that number, and
      shows it; no other key or label changes. */
  lemma {:induction false} FallbackIncrements(p: Page, key: string, id: string, reply: Reply)
    requires RemoteCount(reply).None?
    ensures var q := Counted(p, key, id, reply);
      StoredCount(q.storage, key) == Increment(StoredCount(p.storage, key))
      && key in q.storage && q.storage[key] == NumToString(StoredCount(q.storage, key))
      && (forall k :: k != key ==> (k in q.storage <==> k in p.storage))
      && (forall k :: k != key && k in p.storage ==> q.storage[k] == p.storage[k])
      && q.labels == Show(p.labels, id, q.storage[key])
  {
    var v := Increment(StoredCount(p.storage, key));
    NumberOfString(v);
    if v.Finite? {
      assert NumToString(v) != "";
    }
  }

  /** A count that is not a number stays "NaN" for good. */
  lemma NaNIsSticky(p: Page, key: string, id: string, reply: Reply)
    requires StoredCount(p.storage, key) == NaN && RemoteCount(reply).None?
    ensures Counted(p, key, id, reply).storage[key] == "NaN"
    ensures StoredCount(Counted(p, key, id, reply).storage, key) == NaN
  {
  }

  /** `n` failed requests in a row. */
  function Failures(storage: map<string, string>, key: string, n: nat): map<string, string> {
    if n == 0 then storage else Bumped(Failures(storage, key, n - 1), key)
  }

  /** Starting from no entry, `n` failures leave the count `n`. */
  lemma {:induction false} FailuresCount(storage: map<string, string>, key: string, n: nat)
    requires key !in storage || storage[key] == ""
    ensures StoredCount(Failures(storage, key, n), key) == Finite(n)
    ensures n > 0 ==> Failures(storage, key, n)[key] == NatToString(n)
  {
    if n > 0 {
      FailuresCount(storage, key, n - 1);
      NumberOfString(Finite(n));
      assert NatToString(n) != "";
    }
  }

  /** The keys of different images and of the two counters never clash. */
  lemma KeysDistinct(a: string, b: string)
    ensures LikeKey(a) != DownloadKey(b)
    ensures LikeKey(a) == LikeKey(b) <==> a == b
    ensures DownloadKey(a) == DownloadKey(b) <==> a == b
  {
    assert LikeKey(a)[6] == 'l' && DownloadKey(b)[6] == 'd';
    if LikeKey(a) == LikeKey(b) {
      assert a == LikeKey(a)[17..] && b == LikeKey(b)[17..];
    }
    if DownloadKey(a) == DownloadKey(b) {
      assert a == DownloadKey(a)[21..] && b == DownloadKey(b)[21..];
    }
  }

  /** The file save in the `finally` of the counting `downloadImage`: the image name
      is the link, its last `/`-segment the file name. */
  function SaveOf(imageName: string): (e: Effect)
    ensures e.Save? && e.href == imageName && '/' !in e.fileName
    ensures '/' !in imageName ==> e.fileName == imageName
    ensures |e.fileName| <= |imageName| && e.fileName == imageName[|imageName| - |e.fileName|..]
    ensures |e.fileName| < |imageName| ==> imageName[|imageName| - |e.fileName| - 1] == '/'
  {
    Save(imageName, Or(AfterLast(imageName, '/'), ""))
  }

  /** The page with its storage and counter labels. */
  class CounterPage {
    var storage: map<string, string>
    var labels: map<string, string>

    constructor (storage: map<string, string>, labels: map<string, string>)
      ensures this.storage == storage && this.labels == labels
    {
      this.storage := storage;
      this.labels := labels;
    }

    /** The `catch` handler, and the `then` handler that shows a remote count. */
    method Settle(key: string, countElemId: string, reply: Reply)
      modifies this
      ensures Page(storage, labels) == Counted(old(Page(storage, labels)), key, countElemId, reply)
    {
      var remote := RemoteCount(reply);
      if remote.Some? {
        if countElemId in labels {
          labels := labels[countElemId := remote.value];
        }
        return;
      }
      var current := if key in storage then storage[key] else "";
      var next := Increment(if current != "" then ToNumber(current) else Finite(0));
      storage := storage[key := NumToString(next)];
      if countElemId in labels {
        labels := labels[countElemId := NumToString(next)];
      }
    }

    /** `likeImage(imageName, countElemId)` whose POST answered `reply`. */
    method LikeImage(imageName: string, countElemId: string, reply: Reply) returns (effects: seq<Effect>)
      modifies this
      ensures Page(storage, labels) == Counted(old(Page(storage, labels)), LikeKey(imageName), countElemId, reply)
      ensures effects == [Fetch(LikeEndpoint)]
    {
      effects := [Fetch(LikeEndpoint)];
      Settle("local_like_count:" + imageName, countElemId, reply);
    }

    /** `downloadImage(imageName, countElemId)` whose POST answered `reply`: the
        count is settled, then the file is saved whatever the outcome. */
    method DownloadImage(imageName: string, countElemId: string, reply: Reply) returns (effects: seq<Effect>)
      modifies this
      ensures Page(storage, labels) == Counted(old(Page(storage, labels)), DownloadKey(imageName), countElemId, reply)
      ensures effects == [Fetch(DownloadEndpoint), SaveOf(imageName)]
    {
      Settle("local_download_count:" + imageName, countElemId, reply);
      var fileName := Or(AfterLast(imageName, '/'), "");
      effects := [Fetch(DownloadEndpoint), Save(imageName, fileName)];
    }
  }
}
