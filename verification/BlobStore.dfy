/**
 The content-addressed blob store of the cache server under concurrent writers
 (`handle_put_blob`, `store_blob_bytes_known`, `store_blob_from_file_compute` in
 bins/src/redo_cache_server.rs).

 Every writer streams into a temporary file of its own, hashing what it writes,
 and renames it to the blob's name only when the digest is right.  Reads may be
 short, a writer may lose a race, fail to rename or die at any point.
 */
module BlobStore {
  import opened Common

  /** A writer owns temporary file `tmp`; a declared key is checked, otherwise it is computed. */
  datatype Writer =
    | Streaming(tmp: int, declared: Option<Digest>, hashed: Bytes)
    | Ready(tmp: int, declared: Option<Digest>, key: Digest)

  datatype Store = Store(
    blobs: map<Digest, Bytes>,  // files visible under a blob key
    tmps: map<int, Bytes>,
    writers: map<int, Writer>,
    counter: int)               // TMP_COUNTER

  datatype Step =
    | Begin(w: int, declared: Option<Digest>)
    | Chunk(w: int, bytes: Bytes)  // one read, possibly short
    | Verify(w: int)               // end of input: compare or compute the digest
    | SeeExisting(w: int)          // dest.exists(): accept, drop the temporary file
    | Rename(w: int)               // replaces whatever is there
    | RenameFails(w: int)
    | Die(w: int)                  // leaves its temporary file behind

  function Init(): Store {
    Store(map[], map[], map[], 0)
  }

  predicate Enabled(s: Store, step: Step) {
    match step
    case Begin(w, declared) => w !in s.writers
    case Chunk(w, bytes) => w in s.writers && s.writers[w].Streaming? && s.writers[w].tmp in s.tmps
    case Verify(w) => w in s.writers && s.writers[w].Streaming?
    case SeeExisting(w) => w in s.writers && s.writers[w].Ready? && s.writers[w].key in s.blobs
    case Rename(w) => w in s.writers && s.writers[w].Ready? && s.writers[w].tmp in s.tmps
    case RenameFails(w) => w in s.writers && s.writers[w].Ready?
    case Die(w) => w in s.writers
  }

  function Discard(s: Store, w: int): Store
    requires w in s.writers
  {
    s.(tmps := s.tmps - {s.writers[w].tmp}, writers := s.writers - {w})
  }

  function Next(sha: Sha, s: Store, step: Step): Store
    requires Enabled(s, step)
  {
    match step
    case Begin(w, declared) =>
      s.(tmps := s.tmps[s.counter := []], writers := s.writers[w := Streaming(s.counter, declared, [])],
         counter := s.counter + 1)
    case Chunk(w, bytes) =>
      var x := s.writers[w];
      s.(tmps := s.tmps[x.tmp := s.tmps[x.tmp] + bytes], writers := s.writers[w := x.(hashed := x.hashed + bytes)])
    case Verify(w) =>
      var x := s.writers[w];
      if x.declared.Some? && x.declared.value != sha(x.hashed) then Discard(s, w)
      else s.(writers := s.writers[w := Ready(x.tmp, x.declared, sha(x.hashed))])
    case SeeExisting(w) => Discard(s, w)
    case Rename(w) =>
      var x := s.writers[w];
      Discard(s, w).(blobs := s.blobs[x.key := s.tmps[x.tmp]])
    case RenameFails(w) => Discard(s, w)
    case Die(w) => s.(writers := s.writers - {w})
  }

  ghost predicate WriterOk(sha: Sha, s: Store, w: int)
    requires w in s.writers
  {
    var x := s.writers[w];
    && x.tmp in s.tmps && x.tmp < s.counter
    && (x.Streaming? ==> s.tmps[x.tmp] == x.hashed)
    && (x.Ready? ==> sha(s.tmps[x.tmp]) == x.key && (x.declared.Some? ==> x.declared.value == x.key))
  }

  ghost predicate Inv(sha: Sha, s: Store) {
    && (forall k :: k in s.blobs ==> sha(s.blobs[k]) == k)
    && (forall w :: w in s.writers ==> WriterOk(sha, s, w))
    && (forall a, b :: a in s.writers && b in s.writers && s.writers[a].tmp == s.writers[b].tmp ==> a == b)
  }

  lemma StepInv(sha: Sha, s: Store, step: Step)
    requires Inv(sha, s) && Enabled(s, step)
    ensures Inv(sha, Next(sha, s, step))
  {
    var s' := Next(sha, s, step);
    forall w | w in s'.writers
      ensures WriterOk(sha, s', w)
    {
      if w in s.writers {
        assert WriterOk(sha, s, w);
      }
    }
  }

  /** Visible blobs stay, with their content, even when a rename replaces one. */
  lemma StepKeepsBlobs(sha: Sha, s: Store, step: Step, k: Digest)
    requires CollisionFree(sha) && Inv(sha, s) && Enabled(s, step) && k in s.blobs
    ensures k in Next(sha, s, step).blobs && Next(sha, s, step).blobs[k] == s.blobs[k]
  {
    if step.Rename? {
      assert WriterOk(sha, s, step.w);
    }
  }

  ghost predicate Run(sha: Sha, s: Store, steps: seq<Step>, t: Store)
    decreases |steps|
  {
    if steps == [] then s == t
    else Enabled(s, steps[0]) && Run(sha, Next(sha, s, steps[0]), steps[1..], t)
  }

  lemma {:induction false} RunInv(sha: Sha, s: Store, steps: seq<Step>, t: Store)
    requires Inv(sha, s) && Run(sha, s, steps, t)
    ensures Inv(sha, t)
    decreases |steps|
  {
    if steps != [] {
      StepInv(sha, s, steps[0]);
      RunInv(sha, Next(sha, s, steps[0]), steps[1..], t);
    }
  }

  /** Integrity over every interleaving: the content of a visible blob has the digest it is filed under. */
  lemma BlobIntegrity(sha: Sha, steps: seq<Step>, t: Store, k: Digest)
    requires Run(sha, Init(), steps, t) && k in t.blobs
    ensures sha(t.blobs[k]) == k
  {
    RunInv(sha, Init(), steps, t);
  }

  /** What a writer files is what it received, under the key it declared if it declared one. */
  lemma FiledAsDeclared(sha: Sha, steps: seq<Step>, s: Store, w: int)
    requires Run(sha, Init(), steps, s) && Enabled(s, Rename(w))
    ensures
      var x := s.writers[w];
      var k := sha(s.tmps[x.tmp]);
      && (x.declared.Some? ==> x.declared.value == k)
      && Next(sha, s, Rename(w)).blobs == s.blobs[k := s.tmps[x.tmp]]
  {
    RunInv(sha, Init(), steps, s);
    assert WriterOk(sha, s, w);
  }

  /** A writer is turned away exactly when it declared a key and sent something else, and then leaves nothing. */
  lemma RefusedIff(sha: Sha, steps: seq<Step>, s: Store, w: int)
    requires Run(sha, Init(), steps, s) && Enabled(s, Verify(w))
    ensures
      var x := s.writers[w];
      var s' := Next(sha, s, Verify(w));
      && x.tmp in s.tmps && s'.blobs == s.blobs
      && (w !in s'.writers <==> x.declared.Some? && x.declared.value != sha(s.tmps[x.tmp]))
      && (w !in s'.writers ==> x.tmp !in s'.tmps)
  {
    RunInv(sha, Init(), steps, s);
    assert WriterOk(sha, s, w);
  }

  /** Immutability over every later interleaving. */
  lemma {:induction false} BlobsNeverChange(sha: Sha, s: Store, steps: seq<Step>, t: Store, k: Digest)
    requires CollisionFree(sha) && Inv(sha, s) && Run(sha, s, steps, t) && k in s.blobs
    ensures k in t.blobs && t.blobs[k] == s.blobs[k]
    decreases |steps|
  {
    if steps != [] {
      StepInv(sha, s, steps[0]);
      StepKeepsBlobs(sha, s, steps[0], k);
      BlobsNeverChange(sha, Next(sha, s, steps[0]), steps[1..], t, k);
    }
  }

  // ---------------------------------------------------------------------------
  // The streaming loop
  // ---------------------------------------------------------------------------

  const BUFFER: nat := 0x10_0000

  datatype Reply = Accepted | DigestMismatch | RenameError

  /**
   `handle_put_blob` seen from one connection: `input` is what the client sends
   before it closes, `clen` what it announced.  Reads return any positive
   number of available bytes, and the rename may fail, with or without another
   writer having stored the blob meanwhile.  The digest decides: a wrong one is
   always refused, a right one is never refused for it, and whatever is stored
   has its digest.
   */
  method PutBlob(sha: Sha, blobs: map<Digest, Bytes>, key: Digest, clen: nat, input: Bytes)
    returns (reply: Reply, after: map<Digest, Bytes>)
    requires CollisionFree(sha) && forall k :: k in blobs ==> sha(blobs[k]) == k
    ensures reply.DigestMismatch? <==> sha(input[..Min(clen, |input|)]) != key
    ensures reply.Accepted? ==> after == blobs[key := input[..Min(clen, |input|)]]
    ensures !reply.Accepted? ==> after == blobs
    ensures reply.RenameError? ==> key !in blobs
    ensures forall k :: k in after ==> sha(after[k]) == k
  {
    var tmp: Bytes := [];
    var hashed: Bytes := [];
    var remaining := clen;
    var pos := 0;
    while remaining > 0
      invariant 0 <= pos <= |input| && remaining + pos == clen && remaining >= 0
      invariant tmp == input[..pos] && hashed == input[..pos]
    {
      var want := Min(BUFFER, remaining);
      var available := Min(want, |input| - pos);
      if available == 0 {
        break;
      }
      var n: nat :| 0 < n <= available;
      assert input[..pos] + input[pos..pos + n] == input[..pos + n];
      tmp := tmp + input[pos..pos + n];
      hashed := hashed + input[pos..pos + n];
      pos := pos + n;
      remaining := remaining - n;
    }
    after := blobs;
    if sha(hashed) != key {
      reply := DigestMismatch;
    } else if key in blobs {
      assert blobs[key] == tmp;
      assert blobs == blobs[key := tmp];
      reply := Accepted;
    } else {
      var renamed: bool := *;
      var storedByOther: bool := *;
      if renamed || storedByOther {
        // The other writer's content has the same digest, so it is the same.
        after := blobs[key := tmp];
        reply := Accepted;
      } else {
        reply := RenameError;
      }
    }
  }
}
