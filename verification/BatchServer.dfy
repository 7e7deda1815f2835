/** Executing requests against the cache and writing their replies. Runs of equal items go
    to the cache together; every method is stated against item-by-item execution. */
module BatchServer {
  import opened Base
  import opened Wire
  import opened BatchEncoding
  import opened FrameIO
  import opened Server

  function LookedAll(vs: seq<Option<Bytes>>): seq<Frame> {
    if vs == [] then [] else LookedAll(vs[..|vs| - 1]) + [Looked(vs[|vs| - 1])]
  }

  function DeletedAll(hits: seq<bool>): seq<Frame> {
    if hits == [] then [] else DeletedAll(hits[..|hits| - 1]) + [Deleted(hits[|hits| - 1])]
  }

  lemma {:induction false} LookedAt(vs: seq<Option<Bytes>>)
    ensures |LookedAll(vs)| == |vs|
    ensures forall i | 0 <= i < |vs| ::
      LookedAll(vs)[i] == if vs[i].Some? then Frame(OK, vs[i].value) else Frame(NOT_FOUND, [])
  {
    if vs != [] {
      LookedAt(vs[..|vs| - 1]);
    }
  }

  lemma {:induction false} DeletedAt(hits: seq<bool>)
    ensures |DeletedAll(hits)| == |hits|
    ensures forall i | 0 <= i < |hits| :: DeletedAll(hits)[i] == Frame(if hits[i] then OK else NOT_FOUND, [])
  {
    if hits != [] {
      DeletedAt(hits[..|hits| - 1]);
    }
  }

  function Oks(n: nat): seq<Frame> {
    if n == 0 then [] else Oks(n - 1) + [Frame(OK, [])]
  }

  // ---- the cache's batch operations ----

  /** Look up a run of keys in order: each reply carries the value found, or says there is none. */
  method GetMany<S>(h: Host<S>, s0: S, run: seq<Frame>) returns (s: S, found: seq<Option<Bytes>>)
    requires forall f | f in run :: f.tag == GET
    ensures |found| == |run|
    ensures RunItems(h, s0, run) == (s, LookedAll(found))
    ensures forall i | 0 <= i < |run| ::
      RunItems(h, s0, run).1[i] == if found[i].Some? then Frame(OK, found[i].value) else Frame(NOT_FOUND, [])
  {
    s, found := s0, [];
    for i := 0 to |run|
      invariant |found| == i
      invariant RunItems(h, s0, run[..i]) == (s, LookedAll(found))
    {
      assert run[i] in run && run[..i + 1][..i] == run[..i];
      var (s', v) := h.get(s, run[i].body);
      assert (found + [v])[..i] == found;
      s, found := s', found + [v];
    }
    assert run[..|run|] == run;
    LookedAt(found);
  }

  /** Delete a run of keys in order. */
  method DelMany<S>(h: Host<S>, s0: S, run: seq<Frame>) returns (s: S, hits: seq<bool>)
    requires forall f | f in run :: f.tag == DEL
    ensures |hits| == |run|
    ensures RunItems(h, s0, run) == (s, DeletedAll(hits))
    ensures forall i | 0 <= i < |run| :: RunItems(h, s0, run).1[i] == Frame(if hits[i] then OK else NOT_FOUND, [])
  {
    s, hits := s0, [];
    for i := 0 to |run|
      invariant |hits| == i
      invariant RunItems(h, s0, run[..i]) == (s, DeletedAll(hits))
    {
      assert run[i] in run && run[..i + 1][..i] == run[..i];
      var (s', hit) := h.del(s, run[i].body);
      assert (hits + [hit])[..i] == hits;
      s, hits := s', hits + [hit];
    }
    assert run[..|run|] == run;
    DeletedAt(hits);
  }

  /** `run` are SET items that parse to `entries`. */
  ghost predicate Parses(run: seq<Frame>, entries: seq<(Key, Bytes)>) {
    |run| == |entries| && forall i | 0 <= i < |run| :: run[i].tag == SET && SetBody(run[i].body) == Ok(entries[i])
  }

  /** Store a run of entries, or nothing at all if one of them could never fit. */
  method SetMany<S>(h: Host<S>, s0: S, ghost run: seq<Frame>, entries: seq<(Key, Bytes)>) returns (s: S, ok: bool)
    requires Parses(run, entries)
    ensures ok <==> forall e | e in entries :: FitsIn(e, h.per)
    ensures !ok ==> s == s0
    ensures ok ==> RunItems(h, s0, run) == (s, Oks(|run|))
  {
    hide FitsIn, RunItems, SetBody;
    s := s0;
    for i := 0 to |entries|
      invariant forall j | 0 <= j < i :: FitsIn(entries[j], h.per)
    {
      if !FitsIn(entries[i], h.per) {
        assert entries[i] in entries;
        return s0, false;
      }
    }
    ok := true;
    RunNoItems(h, s0, run);
    for i := 0 to |entries|
      invariant RunItems(h, s0, run[..i]) == (s, Oks(i))
    {
      RunNextSet(h, s0, run, entries, i);
      s := h.put(s, entries[i].0, entries[i].1);
    }
    assert run[..|run|] == run;
  }

  lemma RunNoItems<S>(h: Host<S>, s: S, run: seq<Frame>)
    ensures RunItems(h, s, run[..0]) == (s, [])
  {
  }

  lemma RunNextSet<S>(h: Host<S>, s: S, run: seq<Frame>, entries: seq<(Key, Bytes)>, i: nat)
    requires Parses(run, entries) && i < |run| && FitsIn(entries[i], h.per)
    ensures var before := RunItems(h, s, run[..i]);
            RunItems(h, s, run[..i + 1]) == (h.put(before.0, entries[i].0, entries[i].1), before.1 + [Frame(OK, [])])
  {
    hide FitsIn, SetBody;
    assert run[..i + 1][..i] == run[..i];
  }

  // ---- one run of a batch ----

  /** Append replies to the response under construction. */
  method PutAll(out: FrameWriter, rs: seq<Frame>)
    requires out.Valid()
    modifies out
    ensures out.Valid() && out.Queued() == old(out.Queued()) + EncodeAll(rs)
    ensures forall m :: old(out.Marks(m)) ==> out.Marks(m)
  {
    for i := 0 to |rs|
      invariant out.Valid() && out.Queued() == old(out.Queued()) + EncodeAll(rs[..i])
      invariant forall m :: old(out.Marks(m)) ==> out.Marks(m)
    {
      out.PutFrame(rs[i]);
      EncodeAllSplit(rs[..i], [rs[i]]);
      EncodeAllOne(rs[i]);
      assert rs[..i + 1] == rs[..i] + [rs[i]];
      assert old(out.Queued()) + EncodeAll(rs[..i]) + Encode(rs[i]) == old(out.Queued()) + EncodeAll(rs[..i + 1]);
    }
    assert rs[..|rs|] == rs;
  }

  /** Where the run of items with the tag of item `i` ends. */
  method RunEnd(fs: seq<Frame>, i: nat) returns (j: nat)
    requires i < |fs|
    ensures i < j <= |fs| && (forall k | i <= k < j :: fs[k].tag == fs[i].tag)
    ensures j < |fs| ==> fs[j].tag != fs[i].tag
  {
    j := i + 1;
    while j < |fs| && fs[j].tag == fs[i].tag
      invariant i < j <= |fs| && forall k | i <= k < j :: fs[k].tag == fs[i].tag
    {
      j := j + 1;
    }
  }

  /** Where a run of SET items ends: at another op, or just after the first item that does not
      parse, which is refused on its own. */
  method SetRunEnd(fs: seq<Frame>, i: nat) returns (j: nat, entries: seq<(Key, Bytes)>, bad: Option<DecodeError>)
    requires i < |fs| && fs[i].tag == SET
    ensures i < j <= |fs| && i + |entries| == if bad.Some? then j - 1 else j
    ensures Parses(fs[i..i + |entries|], entries)
    ensures bad.Some? ==> fs[j - 1].tag == SET && SetBody(fs[j - 1].body) == Err(bad.value)
  {
    hide SetBody;
    j, entries, bad := i, [], None;
    while j < |fs| && bad.None? && fs[j].tag == SET
      invariant i <= j <= |fs| && i + |entries| == if bad.Some? then j - 1 else j
      invariant bad.Some? ==> j > i
      invariant Parses(fs[i..i + |entries|], entries)
      invariant bad.Some? ==> fs[j - 1].tag == SET && SetBody(fs[j - 1].body) == Err(bad.value)
      decreases |fs| - j, bad.None?
    {
      var kv := SetBody(fs[j].body);
      if kv.Ok? {
        assert fs[i..j + 1] == fs[i..j] + [fs[j]];
        entries := entries + [kv.value];
      } else {
        bad := Some(kv.error);
      }
      j := j + 1;
    }
  }

  /** Store a run: together if everything fits, one by one otherwise, so that each item answers
      for itself. */
  method StoreRun<S>(h: Host<S>, s0: S, ghost run: seq<Frame>, entries: seq<(Key, Bytes)>) returns (s: S, rs: seq<Frame>)
    requires Parses(run, entries)
    ensures RunItems(h, s0, run) == (s, rs)
  {
    var ok;
    s, ok := SetMany(h, s0, run, entries);
    if ok {
      rs := Oks(|entries|);
      return;
    }
    rs := [];
    for i := 0 to |entries|
      invariant RunItems(h, s0, run[..i]) == (s, rs)
    {
      assert run[..i + 1][..i] == run[..i];
      var (s', r) := StoreOne(h, s, entries[i]);
      s, rs := s', rs + [r];
    }
    assert run[..|run|] == run;
  }

  /** Execute the run starting at item `i` and give its replies: what its items would give one
      by one. */
  method ExecuteRun<S>(h: Host<S>, s0: S, fs: seq<Frame>, i: nat) returns (s: S, j: nat, rs: seq<Frame>)
    requires i < |fs|
    ensures i < j <= |fs| && RunItems(h, s0, fs[i..j]) == (s, rs)
  {
    var op := fs[i].tag;
    if op == GET {
      hide RunItems;
      j := RunEnd(fs, i);
      var found;
      s, found := GetMany(h, s0, fs[i..j]);
      rs := LookedAll(found);
    } else if op == SET {
      s, j, rs := ExecuteSets(h, s0, fs, i);
    } else if op == DEL {
      hide RunItems;
      j := RunEnd(fs, i);
      var hits;
      s, hits := DelMany(h, s0, fs[i..j]);
      rs := DeletedAll(hits);
    } else {
      s, j := s0, i + 1;
      rs := [Frame(UNKNOWN_OP, h.say(NotInBatch(op)))];
      assert fs[i..j] == [fs[i]];
      RunOne(h, s0, fs[i]);
    }
  }

  method ExecuteSets<S>(h: Host<S>, s0: S, fs: seq<Frame>, i: nat) returns (s: S, j: nat, rs: seq<Frame>)
    requires i < |fs| && fs[i].tag == SET
    ensures i < j <= |fs| && RunItems(h, s0, fs[i..j]) == (s, rs)
  {
    hide RunItems, Parses;
    var entries, bad;
    j, entries, bad := SetRunEnd(fs, i);
    var k := i + |entries|;
    s, rs := StoreRun(h, s0, fs[i..k], entries);
    if bad.Some? {
      var refused := Frame(BAD_REQUEST, h.say(Malformed(bad.value)));
      RunSplits(h, s0, fs[i..k], [fs[k]]);
      RunOne(h, s, fs[k]);
      assert fs[i..j] == fs[i..k] + [fs[k]];
      rs := rs + [refused];
    }
  }

  lemma RunOne<S>(h: Host<S>, s: S, f: Frame)
    ensures RunItems(h, s, [f]).0 == ItemReply(h, s, f).0 && RunItems(h, s, [f]).1 == [ItemReply(h, s, f).1]
  {
    assert [f][..0] == [];
    assert RunItems(h, s, [f]).1 == [] + [ItemReply(h, s, f).1];
  }

  /** The items of a validated body, in order. */
  method AllItems(body: Bytes) returns (fs: seq<Frame>)
    requires DecodeBatch(body).Ok?
    ensures fs == DecodeBatch(body).value
  {
    hide DecodeBatch, Frames.Todo, Frames.Valid;
    var items := new Frames(body);
    ghost var all := DecodeBatch(body).value;
    fs := [];
    while true
      invariant fresh(items) && items.Valid() && |fs| <= |all|
      invariant fs == all[..|fs|] && items.Todo() == all[|fs|..]
      decreases |all| - |fs|
    {
      var next := items.Next();
      if next.None? {
        return;
      }
      assert all[..|fs| + 1] == all[..|fs|] + [all[|fs|]];
      fs := fs + [next.value];
    }
  }

  /** Serve a batch body: replies are written as they are produced, under a header patched at
      the end, and dropped as a whole if they exceed the limit. */
  method Batch<S>(h: Host<S>, s0: S, body: Bytes, out: FrameWriter) returns (s: S)
    requires out.Valid()
    modifies out
    ensures out.Valid()
    ensures s == BatchReply(h, s0, body).0
    ensures out.Queued() == old(out.Queued()) + Encode(BatchReply(h, s0, body).1)
  {
    hide RunItems, Encode, EncodeAll, DecodeBatch, FrameWriter.Marks;
    s := s0;
    var valid := Validate(body);
    if valid.Err? {
      out.PutFrame(Frame(BAD_REQUEST, h.say(Malformed(valid.error))));
      return;
    }
    var fs := AllItems(body);
    ghost var before := out.Queued();
    var mark := out.Begin(OK);
    out.PutSlice(U32(|fs|));
    s := RunAll(h, s0, fs, out, mark);
    ghost var rs := RunItems(h, s0, fs).1;
    assert before + Header(OK, 0) + U32(|fs|) + EncodeAll(rs) == before + Header(OK, 0) + EncodeBatch(rs);
    Seal(h, out, mark, before, EncodeBatch(rs));
  }

  /** Close the response, or replace it by a refusal if it is over the limit. */
  method Seal<S>(h: Host<S>, out: FrameWriter, mark: Mark, ghost before: Bytes, ghost body: Bytes)
    requires out.Valid() && out.Marks(mark) && mark.len == |before|
    requires out.Queued() == before + Header(OK, 0) + body
    modifies out
    ensures out.Valid()
    ensures out.Queued() == before + Encode(if |body| > MAX_RESPONSE then Frame(TOO_LARGE, h.say(ResponseTooLong(|body|)))
                                            else Frame(OK, body))
  {
    hide Encode, FrameWriter.Marks;
    var total := out.Since(mark);
    if total > MAX_RESPONSE {
      out.Abort(mark);
      assert out.Queued() == before;
      out.PutFrame(Frame(TOO_LARGE, h.say(ResponseTooLong(total))));
    } else {
      OverwriteIsFrame(before, OK, body);
      out.End(mark);
    }
  }

  method RunAll<S>(h: Host<S>, s0: S, fs: seq<Frame>, out: FrameWriter, ghost mark: Mark) returns (s: S)
    requires out.Valid() && out.Marks(mark)
    modifies out
    ensures out.Valid() && out.Marks(mark)
    ensures s == RunItems(h, s0, fs).0
    ensures out.Queued() == old(out.Queued()) + EncodeAll(RunItems(h, s0, fs).1)
  {
    hide RunItems, EncodeAll, FrameWriter.Marks;
    s := s0;
    var i: nat := 0;
    ghost var done: seq<Frame> := [];
    NothingRun(h, s0, fs);
    while i < |fs|
      invariant i <= |fs| && out.Valid() && out.Marks(mark)
      invariant RunItems(h, s0, fs[..i]) == (s, done)
      invariant out.Queued() == old(out.Queued()) + EncodeAll(done)
    {
      var s', j, rs := ExecuteRun(h, s, fs, i);
      PutAll(out, rs);
      RunSplits(h, s0, fs[..i], fs[i..j]);
      assert fs[..j] == fs[..i] + fs[i..j];
      EncodeAllSplit(done, rs);
      assert old(out.Queued()) + EncodeAll(done) + EncodeAll(rs) == old(out.Queued()) + EncodeAll(done + rs);
      s, i, done := s', j, done + rs;
    }
    assert fs[..|fs|] == fs;
  }

  lemma NothingRun<S>(h: Host<S>, s: S, fs: seq<Frame>)
    ensures RunItems(h, s, fs[..0]) == (s, []) && EncodeAll([]) == []
  {
  }

  /** Route one request to the cache and append its reply. */
  method Dispatch<S>(h: Host<S>, s0: S, f: Frame, out: FrameWriter) returns (s: S)
    requires out.Valid()
    modifies out
    ensures out.Valid()
    ensures s == Dispatched(h, s0, f).0
    ensures out.Queued() == old(out.Queued()) + Encode(Dispatched(h, s0, f).1)
  {
    hide Encode, SetBody, BatchReply;
    s := s0;
    if f.tag == GET {
      var (s', v) := h.get(s0, f.body);
      s := s';
      if v.None? {
        out.PutFrame(Frame(NOT_FOUND, []));
      } else if |v.value| > MAX_RESPONSE {
        out.PutFrame(Frame(TOO_LARGE, h.say(ResponseTooLong(|v.value|))));
      } else {
        out.PutFrame(Frame(OK, v.value));
      }
    } else if f.tag == SET {
      var kv := SetBody(f.body);
      if kv.Ok? {
        var (k, v) := kv.value;
        if |k| + |v| + ENTRY_OVERHEAD <= h.per {
          s := h.put(s0, k, v);
          out.PutFrame(Frame(OK, []));
        } else {
          out.PutFrame(Frame(TOO_LARGE, h.say(NoRoom(|k| + |v| + ENTRY_OVERHEAD, h.per))));
        }
      } else {
        out.PutFrame(Frame(BAD_REQUEST, h.say(Malformed(kv.error))));
      }
    } else if f.tag == DEL {
      var (s', hit) := h.del(s0, f.body);
      s := s';
      out.PutFrame(Frame(if hit then OK else NOT_FOUND, []));
    } else if f.tag == BATCH {
      s := Batch(h, s0, f.body, out);
    } else if f.tag == AUTH || f.tag == PING {
      out.PutFrame(Frame(OK, []));
    } else {
      out.PutFrame(Frame(UNKNOWN_OP, h.say(UnknownOp(f.tag))));
    }
  }
}
