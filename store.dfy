/**
 * The remote object store as the sync engine sees it through its client: a
 * map from (bucket, key) to bytes, a log of every request sent, and an
 * oracle that decides which request fails and how. The client is an object
 * because several mount configurations may share one.
 */
module ObjectStore {
  import opened Prelude
  import opened S3Error

  datatype ObjectId = ObjectId(bucket: string, key: string)

  /** One request as it goes over the wire. */
  datatype Request =
    | Get(id: ObjectId)
    | Put(id: ObjectId, body: Bytes)
    | List(bucket: string, prefix: string)

  /**
   * An injected failure for one request: the request is refused outright, or
   * (for a download) the body stream breaks after `after` chunks.
   */
  datatype Fault = Reject(reason: string) | Cut(after: nat, reason: string)

  /** One object of a listing page, as the SDK returns it: the key may be absent. */
  datatype ListedObject = ListedObject(key: Option<string>, size: int)

  /** A download body (`ByteStream`): the chunks in arrival order, then either the end or an error. */
  datatype Body = Body(chunks: seq<Bytes>, failure: Option<ByteStreamError>)
  {
    /** `try_next`: the next chunk, the end of the stream, or the stream's error. */
    function TryNext(i: nat): (r: Result<Option<Bytes>, ByteStreamError>)
      requires i <= |chunks|
      ensures r.Ok? && r.value.Some? <==> i < |chunks|
      ensures r.Ok? && r.value.Some? ==> r.value.value == chunks[i]
      ensures r.Err? <==> i == |chunks| && failure.Some?
      ensures r.Err? ==> r.error == failure.value
    {
      if i < |chunks| then Ok(Some(chunks[i]))
      else if failure.Some? then Err(failure.value)
      else Ok(None)
    }
  }

  type ChunkSize = n: nat | n > 0 witness 1

  /** The body cut into chunks of `size` bytes, the last one possibly shorter. */
  function Chunks(body: Bytes, size: ChunkSize): (r: seq<Bytes>)
    ensures Concat(r) == body
    ensures forall i :: 0 <= i < |r| ==> 0 < |r[i]| <= size
    decreases |body|
  {
    if body == [] then []
    else if |body| <= size then
      assert [body][..0] == [];
      [body]
    else
      var rest := Chunks(body[size..], size);
      ConcatPrepend(body[..size], rest);
      assert body[..size] + body[size..] == body;
      [body[..size]] + rest
  }

  class S3Client {
    /** The objects of every bucket this client can reach. */
    var objects: map<ObjectId, Bytes>
    /** Every request sent through this client, oldest first. */
    var sent: seq<Request>
    /** The oracle: the failure injected into the request with this index in `sent`. */
    const faults: map<nat, Fault>
    /** The oracle: the listing page returned to the request with this index in `sent`. */
    const pages: map<nat, seq<ListedObject>>
    const chunkSize: ChunkSize

    constructor (objects: map<ObjectId, Bytes>, faults: map<nat, Fault>,
                 pages: map<nat, seq<ListedObject>>, chunkSize: ChunkSize)
      ensures this.objects == objects && this.sent == []
      ensures this.faults == faults && this.pages == pages && this.chunkSize == chunkSize
    {
      this.objects := objects;
      this.sent := [];
      this.faults := faults;
      this.pages := pages;
      this.chunkSize := chunkSize;
    }

    predicate Rejects(n: nat)
    {
      n in faults && faults[n].Reject?
    }

    /** The answer to a download sent as request number `n`. */
    function GetReply(n: nat, id: ObjectId): (r: Result<Body, SdkError>)
      reads this
      ensures r.Ok? ==> id in objects
    {
      if Rejects(n) then Err(SdkError(OpGetObject, faults[n].reason))
      else if id !in objects then Err(SdkError(OpGetObject, "NoSuchKey"))
      else
        var all := Chunks(objects[id], chunkSize);
        if n in faults then
          var cut := if faults[n].after < |all| then faults[n].after else |all|;
          Ok(Body(all[..cut], Some(ByteStreamError(faults[n].reason))))
        else Ok(Body(all, None))
    }

    /**
     * A download body carries the object's bytes: all of them when the stream
     * ends normally, a prefix of them when it breaks.
     */
    lemma {:induction false} GetReplyBody(n: nat, id: ObjectId)
      requires GetReply(n, id).Ok?
      ensures id in objects
      ensures var s := GetReply(n, id).value;
        && |Concat(s.chunks)| <= |objects[id]|
        && Concat(s.chunks) == objects[id][..|Concat(s.chunks)|]
        && (s.failure.None? ==> Concat(s.chunks) == objects[id])
    {
      var all := Chunks(objects[id], chunkSize);
      if n in faults {
        var cut := if faults[n].after < |all| then faults[n].after else |all|;
        ConcatOfPrefix(all, cut);
      }
    }

    /** `get_object().send()`: one request, answered by the oracle or the stored object. */
    method GetObject(id: ObjectId) returns (r: Result<Body, SdkError>)
      modifies this`sent
      ensures sent == old(sent) + [Get(id)]
      ensures r == old(GetReply(|sent|, id))
    {
      r := GetReply(|sent|, id);
      sent := sent + [Get(id)];
    }

    /** `put_object().send()`: one request; unless refused, the object is replaced by the body. */
    method PutObject(id: ObjectId, body: Bytes) returns (r: Result<(), SdkError>)
      modifies this`sent, this`objects
      ensures sent == old(sent) + [Put(id, body)]
      ensures old(Rejects(|sent|)) ==> r == Err(SdkError(OpPutObject, faults[old(|sent|)].reason)) && objects == old(objects)
      ensures !old(Rejects(|sent|)) ==> r == Ok(()) && objects == old(objects)[id := body]
    {
      if Rejects(|sent|) {
        r := Err(SdkError(OpPutObject, faults[|sent|].reason));
      } else {
        r := Ok(());
        objects := objects[id := body];
      }
      sent := sent + [Put(id, body)];
    }

    /** The page returned to a listing sent as request number `n` (empty unless the oracle gives one). */
    function PageAt(n: nat): seq<ListedObject>
    {
      if n in pages then pages[n] else []
    }

    /** `list_objects_v2().send()`: one request; a single page of results or an error. */
    method ListObjectsV2(bucket: string, prefix: string) returns (r: Result<seq<ListedObject>, SdkError>)
      modifies this`sent
      ensures sent == old(sent) + [List(bucket, prefix)]
      ensures old(Rejects(|sent|)) ==> r == Err(SdkError(OpListObjectsV2, faults[old(|sent|)].reason))
      ensures !old(Rejects(|sent|)) ==> r == Ok(PageAt(old(|sent|)))
    {
      if Rejects(|sent|) {
        r := Err(SdkError(OpListObjectsV2, faults[|sent|].reason));
      } else {
        r := Ok(PageAt(|sent|));
      }
      sent := sent + [List(bucket, prefix)];
    }
  }
}
