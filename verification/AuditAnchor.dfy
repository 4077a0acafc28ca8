/** Signed checkpoints of an audit file (`create_checkpoint`, `verify_checkpoint`). */
module AuditAnchor {
  import opened Values
  import opened AuditChain

  /** An ideal MAC over the message `records.head.createdAt`. */
  datatype Signature = Signature(key: Key, records: int, head: Json, createdAt: int)

  datatype Checkpoint = Checkpoint(records: int, head: Json, createdAt: int, signature: Signature)

  /** The two reads of the file, one for the count and one for the head, see the same lines. */
  method CreateCheckpoint(file: Option<seq<Line>>, keys: Keys, signingKey: Key, clock: int)
    returns (r: Result<Checkpoint, ChainError>)
    ensures r.Success? <==> file.Some? && ChainOk(file.value, keys, false)
    ensures r.Success? ==>
      && VerifyCheckpoint(r.value, signingKey)
      && r.value.records == |file.value|
      && r.value.head == HeadAfter(file.value, |file.value|)
      && r.value.createdAt == clock
  {
    var ok, count, error := VerifyChain(file, keys, false);
    if !ok { return Failure(error.value); }
    var lines := file.value;
    if lines != [] { assert LinkOk(lines, |lines| - 1, keys, false); }
    var head := if lines == [] then ZERO else lines[|lines| - 1].value.fields["hash"];
    return Success(Checkpoint(count, head, clock, Signature(signingKey, count, head, clock)));
  }

  predicate VerifyCheckpoint(checkpoint: Checkpoint, signingKey: Key) {
    checkpoint.signature == Signature(signingKey, checkpoint.records, checkpoint.head, checkpoint.createdAt)
  }

  /** One signature is good for one checkpoint under one key: altering a count, a head or a time, or
      checking under another key, makes it fail. */
  lemma SignatureBindsCheckpoint(checkpoint: Checkpoint, key: Key, other: Checkpoint, otherKey: Key)
    requires VerifyCheckpoint(checkpoint, key) && other.signature == checkpoint.signature
    ensures VerifyCheckpoint(other, otherKey) <==> other == checkpoint && otherKey == key
  {
  }

  /** An anchored checkpoint recognizes its file. Of any file that verifies now, whatever keys it
      takes, the first `records` lines are the anchored ones exactly when the hash they end in is
      the anchored head; a file that is shorter has been truncated. */
  lemma AnchorRecognizesFile(anchored: seq<Line>, anchoredKeys: Keys, found: seq<Line>, foundKeys: Keys)
    requires ChainOk(anchored, anchoredKeys, false) && ChainOk(found, foundKeys, false)
    ensures anchored <= found <==>
      |anchored| <= |found| && HeadAfter(found, |anchored|) == HeadAfter(anchored, |anchored|)
    ensures anchored == found <==> HeadAfter(found, |found|) == HeadAfter(anchored, |anchored|)
  {
    if HeadAfter(found, |found|) == HeadAfter(anchored, |anchored|) {
      HeadBindsFile(anchored, found, anchoredKeys, foundKeys);
    }
    if |anchored| <= |found| && HeadAfter(found, |anchored|) == HeadAfter(anchored, |anchored|) {
      PrefixIsOk(found, |anchored|, foundKeys, false);
      assert HeadAfter(found[..|anchored|], |anchored|) == HeadAfter(found, |anchored|);
      HeadBindsFile(anchored, found[..|anchored|], anchoredKeys, foundKeys);
    }
    if anchored <= found && anchored != [] {
      assert found[|anchored| - 1] == anchored[|anchored| - 1];
    }
  }
}
