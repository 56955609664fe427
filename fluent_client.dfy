/** The batching half of a Fluentd client (BaseFluentClient): emit one record, or emit a keyed
    array of records by slicing it into chunks of at most batchSize records and sending the
    chunks, batchesPerPost at a time, through the transport's post(). The transport is an
    oracle here: a function from the call's index and arguments to its reply. */
module FluentClient {
  import opened Outcomes
  import opened Arith

  /** A PHP array of records: its (key, record) pairs in insertion order. */
  type Records<K, R> = seq<(K, R)>

  /** One element of the array handed to post(): a bare record (emit) or a keyed chunk of
      records (emitBatch). */
  datatype Item<K, R> = Single(record: R) | Batch(chunk: Records<K, R>)

  /** The arguments of one call to post(). */
  datatype PostCall<K, R> = PostCall(tag: string, items: seq<Item<K, R>>, timestamp: Option<int>)

  /** What post() does: return one success flag per item, or throw. */
  datatype PostReply = Replied(oks: seq<bool>) | Threw(error: Exception)

  /** The transport: the reply to the n-th call (counting from 0) made with the given arguments. */
  type PostOracle<!K, !R> = (nat, PostCall<K, R>) -> PostReply

  /** post()'s documented contract: when it returns, it returns one flag per item. */
  ghost predicate OnePerItem<K(!new), R(!new)>(post: PostOracle<K, R>)
  {
    forall n: nat, c: PostCall<K, R> :: post(n, c).Replied? ==> |post(n, c).oks| == |c.items|
  }

  predicate AllTrue(oks: seq<bool>)
  {
    false !in oks
  }

  function Keys<K, V>(kvs: seq<(K, V)>): (ks: seq<K>)
    ensures |ks| == |kvs|
    ensures forall i :: 0 <= i < |kvs| ==> ks[i] == kvs[i].0
  {
    seq(|kvs|, i requires 0 <= i < |kvs| => kvs[i].0)
  }

  /** Flattens a sequence of sequences, keeping the order. */
  function Concat<T>(xss: seq<seq<T>>): seq<T>
  {
    if xss == [] then [] else Concat(xss[..|xss| - 1]) + xss[|xss| - 1]
  }

  /** array_combine(keys, array_fill(0, count(keys), ok)): every key of the records mapped to ok. */
  function Mark<K, R>(records: Records<K, R>, ok: bool): (r: seq<(K, bool)>)
    ensures Keys(r) == Keys(records)
    ensures forall i :: 0 <= i < |r| ==> r[i].1 == ok
  {
    seq(|records|, i requires 0 <= i < |records| => (records[i].0, ok))
  }

  /** The chunks of array_slice($records, $r, $batchSize, true) as $r runs over the array. */
  function Chunks<K, R>(records: Records<K, R>, size: nat): seq<Records<K, R>>
    requires size >= 1
    decreases |records|
  {
    if records == [] then []
    else
      var chunk := records[..Min(size, |records|)];
      [chunk] + Chunks(records[|chunk|..], size)
  }

  /** The posts emitBatch makes while `rest` is still to be sliced and `pending` holds the
      chunks gathered for the next post. A post is made once perPost chunks are gathered, or
      once at most one record is left to slice: the source's test `$r >= count($records)-1`. */
  function PlanFrom<K, R>(rest: Records<K, R>, size: nat, perPost: nat, pending: seq<Records<K, R>>)
    : seq<seq<Records<K, R>>>
    requires size >= 1
    decreases |rest|
  {
    if rest == [] then []
    else
      var chunk := rest[..Min(size, |rest|)];
      var gathered := pending + [chunk];
      var left := rest[|chunk|..];
      if |gathered| >= perPost || |left| <= 1 then [gathered] + PlanFrom(left, size, perPost, [])
      else PlanFrom(left, size, perPost, gathered)
  }

  /** The chunks of each post emitBatch makes when no post fails. */
  function Plan<K, R>(records: Records<K, R>, size: nat, perPost: nat): seq<seq<Records<K, R>>>
    requires size >= 1
  {
    PlanFrom(records, size, perPost, [])
  }

  /** The arguments emitBatch passes to post() for one group of chunks. */
  function CallOf<K, R>(tag: string, chunks: seq<Records<K, R>>, timestamp: Option<int>): (c: PostCall<K, R>)
    ensures |c.items| == |chunks|
  {
    PostCall(tag, seq(|chunks|, i requires 0 <= i < |chunks| => Batch(chunks[i])), timestamp)
  }

  /** The flags of a reply; a thrown exception gives none. */
  function Answer(reply: PostReply): seq<bool>
  {
    match reply
    case Replied(oks) => oks
    case Threw(_) => []
  }

  /** The flag for chunk i; a chunk the reply has no flag for counts as failed. */
  function Verdict(oks: seq<bool>, i: nat): bool
  {
    i < |oks| && oks[i]
  }

  /** The result entries of one post: every key of chunk i gets the i-th flag. */
  function FanOut<K, R>(chunks: seq<Records<K, R>>, oks: seq<bool>): seq<(K, bool)>
  {
    if chunks == [] then []
    else
      var i := |chunks| - 1;
      FanOut(chunks[..i], oks) + Mark(chunks[i], Verdict(oks, i))
  }

  /** The result entries of the posts made, the j-th post being the j-th call to the oracle. */
  function Delivered<K, R>(tag: string, timestamp: Option<int>, posts: seq<seq<Records<K, R>>>,
                           post: PostOracle<K, R>): seq<(K, bool)>
  {
    if posts == [] then []
    else
      var j := |posts| - 1;
      Delivered(tag, timestamp, posts[..j], post)
        + FanOut(posts[j], Answer(post(j, CallOf(tag, posts[j], timestamp))))
  }

  // ---------------------------------------------------------------------------------------
  // Sequence facts

  lemma {:induction false} ConcatAppend<T>(a: seq<seq<T>>, b: seq<seq<T>>)
    ensures Concat(a + b) == Concat(a) + Concat(b)
    decreases |b|
  {
    if b == [] {
      assert a + b == a;
    } else {
      var b' := b[..|b| - 1];
      assert (a + b)[..|a + b| - 1] == a + b';
      ConcatAppend(a, b');
    }
  }

  lemma KeysAppend<K, V>(a: seq<(K, V)>, b: seq<(K, V)>)
    ensures Keys(a + b) == Keys(a) + Keys(b)
  {
  }

  // ---------------------------------------------------------------------------------------
  // Chunking and grouping

  /** Chunking keeps every record, in order; every chunk holds between 1 and size records,
      and every chunk but the last holds exactly size. */
  lemma ChunksShape<K, R>(records: Records<K, R>, size: nat)
    requires size >= 1
    ensures Concat(Chunks(records, size)) == records
    ensures forall i :: 0 <= i < |Chunks(records, size)| ==> 1 <= |Chunks(records, size)[i]| <= size
    ensures forall i :: 0 <= i < |Chunks(records, size)| - 1 ==> |Chunks(records, size)[i]| == size
  {
    ChunksConcat(records, size);
    ChunksSizes(records, size);
  }

  lemma {:induction false} ChunksConcat<K, R>(records: Records<K, R>, size: nat)
    requires size >= 1
    ensures Concat(Chunks(records, size)) == records
    decreases |records|
  {
    if records != [] {
      var chunk := records[..Min(size, |records|)];
      var tail := records[|chunk|..];
      ChunksConcat(tail, size);
      ConcatAppend([chunk], Chunks(tail, size));
      assert Concat([chunk]) == chunk by {
        assert [chunk][..0] == [];
      }
      assert chunk + tail == records;
    }
  }

  lemma {:induction false} ChunksSizes<K, R>(records: Records<K, R>, size: nat)
    requires size >= 1
    ensures forall i :: 0 <= i < |Chunks(records, size)| ==> 1 <= |Chunks(records, size)[i]| <= size
    ensures forall i :: 0 <= i < |Chunks(records, size)| - 1 ==> |Chunks(records, size)[i]| == size
    decreases |records|
  {
    if records != [] {
      var chunk := records[..Min(size, |records|)];
      var tail := records[|chunk|..];
      ChunksSizes(tail, size);
      var cs := Chunks(records, size);
      var rest := Chunks(tail, size);
      assert cs == [chunk] + rest;
      assert forall i :: 1 <= i < |cs| ==> cs[i] == rest[i - 1];
      forall i | 0 <= i < |cs| - 1
        ensures |cs[i]| == size
      {
        if i == 0 {
          assert tail != [];
        }
      }
    }
  }

  /** One step of the plan: the next chunk is records[r..next], the next run of at most size
      records, and it either completes a post or joins the pending ones. */
  lemma PlanFromStep<K, R>(records: Records<K, R>, r: nat, next: nat, size: nat, perPost: nat,
                           pending: seq<Records<K, R>>)
    requires size >= 1 && r < |records| && next == Min(r + size, |records|)
    ensures PlanFrom(records[r..], size, perPost, pending) ==
      if |pending| + 1 >= perPost || next >= |records| - 1
      then [pending + [records[r..next]]] + PlanFrom(records[next..], size, perPost, [])
      else PlanFrom(records[next..], size, perPost, pending + [records[r..next]])
  {
    var rest := records[r..];
    var batch := records[r..next];
    assert rest[..Min(size, |rest|)] == batch;
    assert rest[|batch|..] == records[next..];
  }

  /** One slice taken by emitBatch's loop: the records consumed so far stay those of the posts
      made followed by those of the pending chunks. */
  lemma GatherConsumed<T>(records: seq<T>, done: seq<T>, r: nat, next: nat, pending: seq<seq<T>>)
    requires r <= next <= |records|
    requires done + Concat(pending) == records[..r]
    ensures done + Concat(pending + [records[r..next]]) == records[..next]
  {
    var batch := records[r..next];
    ConcatAppend(pending, [batch]);
    assert Concat([batch]) == batch by {
      assert [batch][..0] == [];
    }
    assert records[..r] + batch == records[..next];
    assert done + (Concat(pending) + batch) == (done + Concat(pending)) + batch;
  }

  /** One slice taken by emitBatch's loop: the plan either flushes the gathered chunks as the
      next post or keeps gathering. */
  lemma GatherStep<K, R>(records: Records<K, R>, plan: seq<seq<Records<K, R>>>, m: nat, r: nat,
                         next: nat, size: nat, perPost: nat, pending: seq<Records<K, R>>)
    requires size >= 1 && r < |records| && next == Min(r + size, |records|) && m <= |plan|
    requires PlanFrom(records[r..], size, perPost, pending) == plan[m..]
    ensures |pending| + 1 >= perPost || next >= |records| - 1 ==>
      m < |plan| && plan[m] == pending + [records[r..next]] &&
      PlanFrom(records[next..], size, perPost, []) == plan[m + 1..]
    ensures !(|pending| + 1 >= perPost || next >= |records| - 1) ==>
      PlanFrom(records[next..], size, perPost, pending + [records[r..next]]) == plan[m..]
  {
    PlanFromStep(records, r, next, size, perPost, pending);
    if |pending| + 1 >= perPost || next >= |records| - 1 {
      assert plan[m..][0] == pending + [records[r..next]];
      assert plan[m + 1..] == plan[m..][1..];
    }
  }

  /** Closing a post: the records consumed are those of the posts made, the new one included. */
  lemma FlushConsumed<K>(plan: seq<seq<seq<K>>>, m: nat)
    requires m < |plan|
    ensures Concat(Concat(plan[..m + 1])) == Concat(Concat(plan[..m])) + Concat(plan[m])
  {
    assert plan[..m + 1] == plan[..m] + [plan[m]];
    ConcatAppend(plan[..m], [plan[m]]);
    assert Concat([plan[m]]) == plan[m] by {
      assert [plan[m]][..0] == [];
    }
    ConcatAppend(Concat(plan[..m]), plan[m]);
  }

  /** Making one more post adds that post's result entries behind those of the earlier posts. */
  lemma DeliveredStep<K, R>(tag: string, timestamp: Option<int>, plan: seq<seq<Records<K, R>>>,
                            m: nat, post: PostOracle<K, R>)
    requires m < |plan|
    ensures Delivered(tag, timestamp, plan[..m + 1], post) ==
      Delivered(tag, timestamp, plan[..m], post) + FanOut(plan[m], Answer(post(m, CallOf(tag, plan[m], timestamp))))
  {
    assert plan[..m + 1][..m] == plan[..m];
  }

  /** Grouping keeps the chunks, in order. */
  lemma {:induction false} PlanFromChunks<K, R>(rest: Records<K, R>, size: nat, perPost: nat,
                                                pending: seq<Records<K, R>>)
    requires size >= 1
    requires pending != [] ==> |rest| >= 2
    ensures Concat(PlanFrom(rest, size, perPost, pending)) == pending + Chunks(rest, size)
    decreases |rest|
  {
    if rest == [] {
      assert pending + Chunks(rest, size) == [];
    } else {
      var chunk := rest[..Min(size, |rest|)];
      var gathered := pending + [chunk];
      var left := rest[|chunk|..];
      assert Chunks(rest, size) == [chunk] + Chunks(left, size);
      assert pending + Chunks(rest, size) == gathered + Chunks(left, size);
      if |gathered| >= perPost || |left| <= 1 {
        var tail := PlanFrom(left, size, perPost, []);
        PlanFromChunks(left, size, perPost, []);
        ConcatAppend([gathered], tail);
        assert Concat([gathered]) == gathered by {
          assert [gathered][..0] == [];
        }
      } else {
        PlanFromChunks(left, size, perPost, gathered);
      }
    }
  }

  /** Every post carries between 1 and max(1, perPost) chunks. */
  lemma {:induction false} PlanFromSizes<K, R>(rest: Records<K, R>, size: nat, perPost: nat,
                                               pending: seq<Records<K, R>>)
    requires size >= 1
    requires pending != [] ==> |pending| < perPost
    ensures forall j :: 0 <= j < |PlanFrom(rest, size, perPost, pending)| ==>
      1 <= |PlanFrom(rest, size, perPost, pending)[j]| <= Max(1, perPost)
    decreases |rest|
  {
    if rest != [] {
      var chunk := rest[..Min(size, |rest|)];
      var gathered := pending + [chunk];
      var left := rest[|chunk|..];
      if |gathered| >= perPost || |left| <= 1 {
        var tail := PlanFrom(left, size, perPost, []);
        PlanFromSizes(left, size, perPost, []);
        assert forall i :: 0 <= i < |tail| ==> 1 <= |tail[i]| <= Max(1, perPost);
        assert 1 <= |gathered| <= Max(1, perPost);
        var ps := PlanFrom(rest, size, perPost, pending);
        assert ps == [gathered] + tail;
        forall j | 0 <= j < |ps|
          ensures 1 <= |ps[j]| <= Max(1, perPost)
        {
          if j == 0 {
            assert ps[j] == gathered;
          } else {
            assert ps[j] == tail[j - 1];
          }
        }
      } else {
        var ps := PlanFrom(rest, size, perPost, pending);
        assert ps == PlanFrom(left, size, perPost, gathered);
        PlanFromSizes(left, size, perPost, gathered);
        assert forall j :: 0 <= j < |ps| ==> 1 <= |ps[j]| <= Max(1, perPost);
      }
    }
  }

  /** Flattening the plan's posts gives the chunks, and flattening those gives the records. */
  lemma PlanShape<K, R>(records: Records<K, R>, size: nat, perPost: nat)
    requires size >= 1
    ensures Concat(Plan(records, size, perPost)) == Chunks(records, size)
    ensures Concat(Concat(Plan(records, size, perPost))) == records
    ensures forall j :: 0 <= j < |Plan(records, size, perPost)| ==>
      1 <= |Plan(records, size, perPost)[j]| <= Max(1, perPost)
  {
    PlanFromChunks(records, size, perPost, []);
    PlanFromSizes(records, size, perPost, []);
    ChunksShape(records, size);
  }

  /** The records carried by the first k posts of the plan are a prefix of the records. */
  lemma PlanPrefix<K, R>(records: Records<K, R>, size: nat, perPost: nat, k: nat)
    requires size >= 1 && k <= |Plan(records, size, perPost)|
    ensures |Concat(Concat(Plan(records, size, perPost)[..k]))| <= |records|
    ensures Concat(Concat(Plan(records, size, perPost)[..k])) ==
      records[..|Concat(Concat(Plan(records, size, perPost)[..k]))|]
  {
    var plan := Plan(records, size, perPost);
    PlanShape(records, size, perPost);
    assert plan == plan[..k] + plan[k..];
    ConcatAppend(plan[..k], plan[k..]);
    ConcatAppend(Concat(plan[..k]), Concat(plan[k..]));
  }

  /** As many records as fit one chunk, sent with perPost >= 1: one chunk in one post. */
  lemma OneChunkOnePost<K, R>(records: Records<K, R>, size: nat, perPost: nat)
    requires 1 <= |records| <= size && perPost >= 1
    ensures Plan(records, size, perPost) == [[records]]
  {
    PlanFromStep(records, 0, |records|, size, perPost, []);
    assert records[0..|records|] == records && records[0..] == records;
    assert [] + [records] == [records];
  }

  /** Eight records, batchSize 2, batchesPerPost 2: two posts of two full chunks each. */
  lemma EightRecordsTwoPosts<K, R>(records: Records<K, R>)
    requires |records| == 8
    ensures Plan(records, 2, 2) == [[records[..2], records[2..4]], [records[4..6], records[6..]]]
  {
    var c0, c1, c2, c3 := records[0..2], records[2..4], records[4..6], records[6..8];
    assert PlanFrom(records[6..], 2, 2, [c2]) == [[c2, c3]] by {
      PlanFromStep(records, 6, 8, 2, 2, [c2]);
      assert PlanFrom(records[8..], 2, 2, []) == [];
      assert [c2] + [c3] == [c2, c3];
    }
    assert PlanFrom(records[4..], 2, 2, []) == [[c2, c3]] by {
      PlanFromStep(records, 4, 6, 2, 2, []);
      assert [] + [c2] == [c2];
    }
    assert PlanFrom(records[2..], 2, 2, [c0]) == [[c0, c1], [c2, c3]] by {
      PlanFromStep(records, 2, 4, 2, 2, [c0]);
      assert [c0] + [c1] == [c0, c1];
    }
    PlanFromStep(records, 0, 2, 2, 2, []);
    assert [] + [c0] == [c0];
    assert records[0..] == records && records[6..] == c3;
  }

  /** The flush test `$r >= count($records)-1` posts early when one record is left: five
      records in chunks of 2 go out in two posts even though ten chunks would fit in one. */
  lemma FiveRecordsFlushEarly<K, R>(records: Records<K, R>)
    requires |records| == 5
    ensures Plan(records, 2, 10) == [[records[..2], records[2..4]], [records[4..]]]
  {
    var c0, c1, c2 := records[0..2], records[2..4], records[4..5];
    assert PlanFrom(records[4..], 2, 10, []) == [[c2]] by {
      PlanFromStep(records, 4, 5, 2, 10, []);
      assert PlanFrom(records[5..], 2, 10, []) == [];
      assert [] + [c2] == [c2];
    }
    assert PlanFrom(records[2..], 2, 10, [c0]) == [[c0, c1], [c2]] by {
      PlanFromStep(records, 2, 4, 2, 10, [c0]);
      assert [c0] + [c1] == [c0, c1];
    }
    PlanFromStep(records, 0, 2, 2, 10, []);
    assert [] + [c0] == [c0];
    assert records[0..] == records && records[4..] == c2;
  }

  // ---------------------------------------------------------------------------------------
  // Result fan-out

  /** Fan-out gives every record of the chunks an entry, in order, under its own key. */
  lemma {:induction false} FanOutKeys<K, R>(chunks: seq<Records<K, R>>, oks: seq<bool>)
    ensures Keys(FanOut(chunks, oks)) == Keys(Concat(chunks))
    decreases |chunks|
  {
    if chunks != [] {
      var i := |chunks| - 1;
      FanOutKeys(chunks[..i], oks);
      KeysAppend(FanOut(chunks[..i], oks), Mark(chunks[i], Verdict(oks, i)));
      KeysAppend(Concat(chunks[..i]), chunks[i]);
    }
  }

  /** The k-th record of chunk i gets exactly the i-th flag of the reply. */
  lemma {:induction false} FanOutAt<K, R>(chunks: seq<Records<K, R>>, oks: seq<bool>, i: nat, k: nat)
    requires i < |chunks| && i < |oks| && k < |chunks[i]|
    ensures var at := |Concat(chunks[..i])| + k;
      at < |FanOut(chunks, oks)| && FanOut(chunks, oks)[at] == (chunks[i][k].0, oks[i])
    decreases |chunks|
  {
    var last := |chunks| - 1;
    if i < last {
      assert chunks[..last][..i] == chunks[..i];
      FanOutAt(chunks[..last], oks, i, k);
    } else {
      FanOutKeys(chunks[..last], oks);
      assert chunks[..i] == chunks[..last];
    }
  }

  /** Fan-out of a chunk prefix reads only the flags of those chunks. */
  lemma {:induction false} FanOutOnlyUsesOwnFlags<K, R>(chunks: seq<Records<K, R>>, oks: seq<bool>, more: seq<bool>)
    requires |oks| == |chunks| && |chunks| <= |more| && oks == more[..|chunks|]
    ensures FanOut(chunks, oks) == FanOut(chunks, more)
    decreases |chunks|
  {
    if chunks != [] {
      var i := |chunks| - 1;
      FanOutOnlyUsesOwnFlags(chunks[..i], oks[..i], more);
      FanOutOnlyUsesOwnFlags(chunks[..i], oks[..i], oks);
    }
  }

  /** The delivered entries carry the keys of all records of the posts made, in order. */
  lemma {:induction false} DeliveredKeys<K, R>(tag: string, timestamp: Option<int>,
                                               posts: seq<seq<Records<K, R>>>, post: PostOracle<K, R>)
    ensures Keys(Delivered(tag, timestamp, posts, post)) == Keys(Concat(Concat(posts)))
    decreases |posts|
  {
    if posts != [] {
      var j := |posts| - 1;
      var oks := Answer(post(j, CallOf(tag, posts[j], timestamp)));
      DeliveredKeys(tag, timestamp, posts[..j], post);
      FanOutKeys(posts[j], oks);
      KeysAppend(Delivered(tag, timestamp, posts[..j], post), FanOut(posts[j], oks));
      assert Concat(posts) == Concat(posts[..j]) + posts[j];
      ConcatAppend(Concat(posts[..j]), posts[j]);
      KeysAppend(Concat(Concat(posts[..j])), Concat(posts[j]));
    }
  }

  /** When every post answers all-true, every record is marked true. */
  lemma {:induction false} DeliveredAllTrue<K(!new), R(!new)>(tag: string, timestamp: Option<int>,
                                                  posts: seq<seq<Records<K, R>>>, post: PostOracle<K, R>)
    requires OnePerItem(post)
    requires forall j :: 0 <= j < |posts| ==>
      post(j, CallOf(tag, posts[j], timestamp)).Replied? && AllTrue(post(j, CallOf(tag, posts[j], timestamp)).oks)
    ensures Delivered(tag, timestamp, posts, post) == Mark(Concat(Concat(posts)), true)
    decreases |posts|
  {
    if posts != [] {
      var j := |posts| - 1;
      var front := posts[..j];
      var call := CallOf(tag, posts[j], timestamp);
      var oks := Answer(post(j, call));
      assert forall i :: 0 <= i < |front| ==> front[i] == posts[i];
      DeliveredAllTrue(tag, timestamp, front, post);
      assert |oks| == |posts[j]| && AllTrue(oks);
      FanOutAllTrue(posts[j], oks);
      assert Delivered(tag, timestamp, posts, post) ==
        Mark(Concat(Concat(front)), true) + Mark(Concat(posts[j]), true);
      MarkAppend(Concat(Concat(front)), Concat(posts[j]), true);
      assert Concat(posts) == Concat(front) + posts[j];
      ConcatAppend(Concat(front), posts[j]);
    }
  }

  lemma MarkAppend<K, R>(a: Records<K, R>, b: Records<K, R>, ok: bool)
    ensures Mark(a + b, ok) == Mark(a, ok) + Mark(b, ok)
  {
    assert forall i :: 0 <= i < |a + b| ==> Mark(a + b, ok)[i] == (Mark(a, ok) + Mark(b, ok))[i];
  }

  lemma {:induction false} FanOutAllTrue<K, R>(chunks: seq<Records<K, R>>, oks: seq<bool>)
    requires |oks| == |chunks| && AllTrue(oks)
    ensures FanOut(chunks, oks) == Mark(Concat(chunks), true)
    decreases |chunks|
  {
    if chunks != [] {
      var i := |chunks| - 1;
      FanOutOnlyUsesOwnFlags(chunks[..i], oks[..i], oks);
      FanOutAllTrue(chunks[..i], oks[..i]);
    }
  }

  /** A reply that lets emitBatch go on to its next post: flags, all of them true. */
  predicate Succeeded(reply: PostReply)
  {
    reply.Replied? && AllTrue(reply.oks)
  }

  /** How many of the planned posts emitBatch makes, counting from post i: it goes on while
      the posts succeed and stops after the first that does not. */
  function PostsMade<K, R>(tag: string, timestamp: Option<int>, plan: seq<seq<Records<K, R>>>,
                           post: PostOracle<K, R>, i: nat): (k: nat)
    requires i <= |plan|
    ensures i <= k <= |plan|
    decreases |plan| - i
  {
    if i == |plan| then i
    else if Succeeded(post(i, CallOf(tag, plan[i], timestamp))) then PostsMade(tag, timestamp, plan, post, i + 1)
    else i + 1
  }

  /** What emitBatch returns: the exception of a post that threw, or else the flags of every
      record the posts made carried, then false for every record never sliced into a chunk. */
  function BatchOutcome<K, R>(tag: string, records: Records<K, R>, timestamp: Option<int>,
                              size: nat, perPost: nat, post: PostOracle<K, R>): Result<seq<(K, bool)>>
    requires size >= 1
  {
    var plan := Plan(records, size, perPost);
    var k := PostsMade(tag, timestamp, plan, post, 0);
    if k > 0 && post(k - 1, CallOf(tag, plan[k - 1], timestamp)).Threw? then
      Failure(post(k - 1, CallOf(tag, plan[k - 1], timestamp)).error)
    else
      PlanPrefix(records, size, perPost, k);
      var sent := |Concat(Concat(plan[..k]))|;
      Success(Delivered(tag, timestamp, plan[..k], post) + Mark(records[sent..], false))
  }

  /** The calls that make the given posts, one after another. */
  function Calls<K, R>(tag: string, posts: seq<seq<Records<K, R>>>, timestamp: Option<int>)
    : (cs: seq<PostCall<K, R>>)
    ensures |cs| == |posts|
    ensures forall j :: 0 <= j < |posts| ==> cs[j] == CallOf(tag, posts[j], timestamp)
  {
    seq(|posts|, j requires 0 <= j < |posts| => CallOf(tag, posts[j], timestamp))
  }

  /** emitBatch's loop from the state (r, pending, made, results): take the slice at r, post
      the gathered chunks when batchesPerPost of them are pending or at most one record is
      left, and stop at the first post that throws or reports a failure. Gives the outcome and
      every call made. */
  function BatchLoop<K, R>(tag: string, records: Records<K, R>, timestamp: Option<int>, size: nat,
                           perPost: nat, post: PostOracle<K, R>, r: nat, pending: seq<Records<K, R>>,
                           made: seq<PostCall<K, R>>, results: seq<(K, bool)>)
    : (Result<seq<(K, bool)>>, seq<PostCall<K, R>>)
    requires size >= 1 && r <= |records|
    decreases |records| - r
  {
    if r == |records| then (Success(results), made)
    else
      var next := Min(r + size, |records|);
      var gathered := pending + [records[r..next]];
      if |gathered| >= perPost || next >= |records| - 1 then
        var call := CallOf(tag, gathered, timestamp);
        var reply := post(|made|, call);
        if Succeeded(reply) then
          BatchLoop(tag, records, timestamp, size, perPost, post, next, [], made + [call],
                    results + FanOut(gathered, reply.oks))
        else StopWith(reply, results, gathered, records[next..], made + [call])
      else BatchLoop(tag, records, timestamp, size, perPost, post, next, gathered, made, results)
  }

  /** A state of emitBatch's loop that lies on the plan: the posts made are the plan's first
      ones and all but possibly the last succeeded, the pending chunks start the next post, and
      the results are those of the posts made. */
  ghost predicate OnPlan<K, R>(tag: string, records: Records<K, R>, timestamp: Option<int>, size: nat,
                               perPost: nat, post: PostOracle<K, R>, r: nat, pending: seq<Records<K, R>>,
                               made: seq<PostCall<K, R>>, results: seq<(K, bool)>)
    requires size >= 1
  {
    var plan := Plan(records, size, perPost);
    r <= |records| && |made| <= |plan| &&
    PlanFrom(records[r..], size, perPost, pending) == plan[|made|..] &&
    Concat(Concat(plan[..|made|])) + Concat(pending) == records[..r] &&
    (pending != [] ==> r < |records| - 1) &&
    made == Calls(tag, plan[..|made|], timestamp) &&
    PostsMade(tag, timestamp, plan, post, |made|) == PostsMade(tag, timestamp, plan, post, 0) &&
    (|made| > 0 ==> Succeeded(post(|made| - 1, made[|made| - 1]))) &&
    results == Delivered(tag, timestamp, plan[..|made|], post)
  }

  lemma OnPlanInit<K, R>(tag: string, records: Records<K, R>, timestamp: Option<int>, size: nat,
                         perPost: nat, post: PostOracle<K, R>)
    requires size >= 1
    ensures OnPlan(tag, records, timestamp, size, perPost, post, 0, [], [], [])
  {
    var plan := Plan(records, size, perPost);
    assert records[0..] == records;
    assert plan[..0] == [] && plan[0..] == plan;
    assert Concat(Concat(plan[..0])) == [];
  }

  /** What emitBatch ends with: the outcome and the calls of the posts made. */
  function Final<K, R>(tag: string, records: Records<K, R>, timestamp: Option<int>, size: nat,
                       perPost: nat, post: PostOracle<K, R>): (Result<seq<(K, bool)>>, seq<PostCall<K, R>>)
    requires size >= 1
  {
    var plan := Plan(records, size, perPost);
    (BatchOutcome(tag, records, timestamp, size, perPost, post),
     Calls(tag, plan[..PostsMade(tag, timestamp, plan, post, 0)], timestamp))
  }

  /** The loop, run from a state on the plan, ends with the plan-based outcome and calls. */
  lemma {:induction false} BatchLoopOnPlan<K(!new), R(!new)>(tag: string, records: Records<K, R>,
                           timestamp: Option<int>, size: nat, perPost: nat, post: PostOracle<K, R>,
                           r: nat, pending: seq<Records<K, R>>, made: seq<PostCall<K, R>>,
                           results: seq<(K, bool)>)
    requires size >= 1 && OnePerItem(post)
    requires OnPlan(tag, records, timestamp, size, perPost, post, r, pending, made, results)
    ensures BatchLoop(tag, records, timestamp, size, perPost, post, r, pending, made, results) ==
      Final(tag, records, timestamp, size, perPost, post)
    decreases |records| - r, 1
  {
    if r == |records| {
      LoopExit(tag, records, timestamp, size, perPost, post, pending, made, results);
    } else {
      var next := Min(r + size, |records|);
      if |pending| + 1 >= perPost || next >= |records| - 1 {
        FlushOnPlan(tag, records, timestamp, size, perPost, post, r, pending, made, results);
      } else {
        LoopGather(tag, records, timestamp, size, perPost, post, r, pending, made, results);
        BatchLoopOnPlan(tag, records, timestamp, size, perPost, post, next,
                        pending + [records[r..next]], made, results);
      }
    }
  }

  /** The loop from a state on the plan that posts its gathered chunks. */
  lemma {:induction false} FlushOnPlan<K(!new), R(!new)>(tag: string, records: Records<K, R>,
                           timestamp: Option<int>, size: nat, perPost: nat, post: PostOracle<K, R>,
                           r: nat, pending: seq<Records<K, R>>, made: seq<PostCall<K, R>>,
                           results: seq<(K, bool)>)
    requires size >= 1 && OnePerItem(post)
    requires OnPlan(tag, records, timestamp, size, perPost, post, r, pending, made, results)
    requires r < |records|
    requires |pending| + 1 >= perPost || Min(r + size, |records|) >= |records| - 1
    ensures BatchLoop(tag, records, timestamp, size, perPost, post, r, pending, made, results) ==
      Final(tag, records, timestamp, size, perPost, post)
    decreases |records| - r, 0
  {
    var next := Min(r + size, |records|);
    var gathered := pending + [records[r..next]];
    var call := CallOf(tag, gathered, timestamp);
    var reply := post(|made|, call);
    FlushStep(tag, records, timestamp, size, perPost, post, r, pending, made, results);
    if Succeeded(reply) {
      assert BatchLoop(tag, records, timestamp, size, perPost, post, next, [], made + [call],
                       results + FanOut(gathered, reply.oks)) == Final(tag, records, timestamp, size, perPost, post) by {
        LoopFlushGoesOn(tag, records, timestamp, size, perPost, post, r, pending, made, results);
        BatchLoopOnPlan(tag, records, timestamp, size, perPost, post, next, [], made + [call],
                        results + FanOut(gathered, reply.oks));
      }
    } else {
      assert StopWith(reply, results, gathered, records[next..], made + [call]) ==
             Final(tag, records, timestamp, size, perPost, post) by {
        LoopFlushStops(tag, records, timestamp, size, perPost, post, r, pending, made, results);
      }
    }
  }

  /** One step of the loop that posts the gathered chunks. */
  lemma FlushStep<K, R>(tag: string, records: Records<K, R>, timestamp: Option<int>, size: nat,
                        perPost: nat, post: PostOracle<K, R>, r: nat, pending: seq<Records<K, R>>,
                        made: seq<PostCall<K, R>>, results: seq<(K, bool)>)
    requires size >= 1 && r < |records|
    requires |pending| + 1 >= perPost || Min(r + size, |records|) >= |records| - 1
    ensures var next := Min(r + size, |records|);
      var gathered := pending + [records[r..next]];
      var call := CallOf(tag, gathered, timestamp);
      var reply := post(|made|, call);
      BatchLoop(tag, records, timestamp, size, perPost, post, r, pending, made, results) ==
        if Succeeded(reply)
        then BatchLoop(tag, records, timestamp, size, perPost, post, next, [], made + [call],
                       results + FanOut(gathered, reply.oks))
        else StopWith(reply, results, gathered, records[next..], made + [call])
  {
  }

  /** When the records are used up, every planned post was made and succeeded. */
  lemma LoopExit<K, R>(tag: string, records: Records<K, R>, timestamp: Option<int>, size: nat,
                       perPost: nat, post: PostOracle<K, R>, pending: seq<Records<K, R>>,
                       made: seq<PostCall<K, R>>, results: seq<(K, bool)>)
    requires size >= 1
    requires OnPlan(tag, records, timestamp, size, perPost, post, |records|, pending, made, results)
    ensures BatchLoop(tag, records, timestamp, size, perPost, post, |records|, pending, made, results) ==
      (BatchOutcome(tag, records, timestamp, size, perPost, post),
       Calls(tag, Plan(records, size, perPost)[..PostsMade(tag, timestamp, Plan(records, size, perPost), post, 0)], timestamp))
  {
    var plan := Plan(records, size, perPost);
    assert pending == [];
    assert records[|records|..] == [];
    assert |made| == |plan|;
    var k := PostsMade(tag, timestamp, plan, post, 0);
    assert k == |plan|;
    assert plan[..k] == plan;
    if k > 0 {
      assert made[k - 1] == CallOf(tag, plan[k - 1], timestamp);
      assert !post(k - 1, CallOf(tag, plan[k - 1], timestamp)).Threw?;
    }
    assert Delivered(tag, timestamp, plan[..k], post) == results;
    assert Concat(Concat(plan)) == records by {
      assert Concat(pending) == [];
      assert records[..|records|] == records;
    }
    assert Mark(records[|Concat(Concat(plan[..k]))|..], false) == [];
    assert results + [] == results;
    assert BatchOutcome(tag, records, timestamp, size, perPost, post) == Success(results);
  }

  /** Gathering a chunk without posting keeps the loop on the plan. */
  lemma LoopGather<K, R>(tag: string, records: Records<K, R>, timestamp: Option<int>, size: nat,
                         perPost: nat, post: PostOracle<K, R>, r: nat, pending: seq<Records<K, R>>,
                         made: seq<PostCall<K, R>>, results: seq<(K, bool)>)
    requires size >= 1 && r < |records|
    requires OnPlan(tag, records, timestamp, size, perPost, post, r, pending, made, results)
    requires !(|pending| + 1 >= perPost || Min(r + size, |records|) >= |records| - 1)
    ensures OnPlan(tag, records, timestamp, size, perPost, post, Min(r + size, |records|),
                   pending + [records[r..Min(r + size, |records|)]], made, results)
  {
    var plan := Plan(records, size, perPost);
    var next := Min(r + size, |records|);
    GatherConsumed(records, Concat(Concat(plan[..|made|])), r, next, pending);
    GatherStep(records, plan, |made|, r, next, size, perPost, pending);
  }

  /** The chunks posted from a state on the plan are the plan's next post. */
  lemma LoopFlush<K, R>(tag: string, records: Records<K, R>, timestamp: Option<int>, size: nat,
                        perPost: nat, post: PostOracle<K, R>, r: nat, pending: seq<Records<K, R>>,
                        made: seq<PostCall<K, R>>, results: seq<(K, bool)>)
    requires size >= 1 && r < |records|
    requires OnPlan(tag, records, timestamp, size, perPost, post, r, pending, made, results)
    requires |pending| + 1 >= perPost || Min(r + size, |records|) >= |records| - 1
    ensures var plan := Plan(records, size, perPost);
      var next := Min(r + size, |records|);
      var m := |made|;
      m < |plan| && plan[m] == pending + [records[r..next]] &&
      PlanFrom(records[next..], size, perPost, []) == plan[m + 1..] &&
      Concat(Concat(plan[..m + 1])) == records[..next]
  {
    var plan := Plan(records, size, perPost);
    var next := Min(r + size, |records|);
    var m := |made|;
    GatherConsumed(records, Concat(Concat(plan[..m])), r, next, pending);
    GatherStep(records, plan, m, r, next, size, perPost, pending);
    FlushConsumed(plan, m);
  }

  /** Making the plan's post m after m posts that lie on the plan. */
  lemma PostStep<K, R>(tag: string, timestamp: Option<int>, plan: seq<seq<Records<K, R>>>,
                       post: PostOracle<K, R>, made: seq<PostCall<K, R>>, results: seq<(K, bool)>)
    requires |made| < |plan|
    requires made == Calls(tag, plan[..|made|], timestamp)
    requires PostsMade(tag, timestamp, plan, post, |made|) == PostsMade(tag, timestamp, plan, post, 0)
    requires results == Delivered(tag, timestamp, plan[..|made|], post)
    ensures var m := |made|;
      var reply := post(m, CallOf(tag, plan[m], timestamp));
      made + [CallOf(tag, plan[m], timestamp)] == Calls(tag, plan[..m + 1], timestamp) &&
      (Succeeded(reply) ==> PostsMade(tag, timestamp, plan, post, m + 1) == PostsMade(tag, timestamp, plan, post, 0)) &&
      (!Succeeded(reply) ==> PostsMade(tag, timestamp, plan, post, 0) == m + 1) &&
      Delivered(tag, timestamp, plan[..m + 1], post) == results + FanOut(plan[m], Answer(reply))
  {
    var m := |made|;
    CallsStep(tag, timestamp, plan, made);
    DeliveredStep(tag, timestamp, plan, m, post);
  }

  lemma CallsStep<K, R>(tag: string, timestamp: Option<int>, plan: seq<seq<Records<K, R>>>,
                        made: seq<PostCall<K, R>>)
    requires |made| < |plan|
    requires made == Calls(tag, plan[..|made|], timestamp)
    ensures made + [CallOf(tag, plan[|made|], timestamp)] == Calls(tag, plan[..|made| + 1], timestamp)
  {
    var m := |made|;
    var cs := Calls(tag, plan[..m + 1], timestamp);
    forall j | 0 <= j < m + 1
      ensures (made + [CallOf(tag, plan[m], timestamp)])[j] == cs[j]
    {
      assert plan[..m + 1][j] == plan[j];
      if j < m {
        assert plan[..m][j] == plan[j];
      }
    }
  }

  /** What emitBatch returns, and the calls it made, when the post of the gathered chunks
      throws or reports a failure. */
  function StopWith<K, R>(reply: PostReply, results: seq<(K, bool)>, gathered: seq<Records<K, R>>,
                          unsliced: Records<K, R>, made: seq<PostCall<K, R>>)
    : (Result<seq<(K, bool)>>, seq<PostCall<K, R>>)
  {
    match reply
    case Threw(e) => (Failure(e), made)
    case Replied(oks) => (Success(results + FanOut(gathered, oks) + Mark(unsliced, false)), made)
  }

  /** A post that throws or reports a failure ends the loop with the plan-based outcome. */
  lemma LoopFlushStops<K, R>(tag: string, records: Records<K, R>, timestamp: Option<int>,
                        size: nat, perPost: nat, post: PostOracle<K, R>, r: nat,
                        pending: seq<Records<K, R>>, made: seq<PostCall<K, R>>, results: seq<(K, bool)>)
    requires size >= 1 && r < |records|
    requires OnPlan(tag, records, timestamp, size, perPost, post, r, pending, made, results)
    requires |pending| + 1 >= perPost || Min(r + size, |records|) >= |records| - 1
    requires !Succeeded(post(|made|, CallOf(tag, pending + [records[r..Min(r + size, |records|)]], timestamp)))
    ensures var next := Min(r + size, |records|);
      var call := CallOf(tag, pending + [records[r..next]], timestamp);
      StopWith(post(|made|, call), results, pending + [records[r..next]], records[next..], made + [call]) ==
      (BatchOutcome(tag, records, timestamp, size, perPost, post),
       Calls(tag, Plan(records, size, perPost)[..PostsMade(tag, timestamp, Plan(records, size, perPost), post, 0)], timestamp))
  {
    var plan := Plan(records, size, perPost);
    var m := |made|;
    LoopFlush(tag, records, timestamp, size, perPost, post, r, pending, made, results);
    PostStep(tag, timestamp, plan, post, made, results);
    StopOutcome(tag, records, timestamp, size, perPost, post, m, Min(r + size, |records|), made, results);
  }

  lemma StopOutcome<K, R>(tag: string, records: Records<K, R>, timestamp: Option<int>, size: nat,
                          perPost: nat, post: PostOracle<K, R>, m: nat, next: nat,
                          made: seq<PostCall<K, R>>, results: seq<(K, bool)>)
    requires size >= 1 && next <= |records| && m < |Plan(records, size, perPost)|
    requires Concat(Concat(Plan(records, size, perPost)[..m + 1])) == records[..next]
    requires PostsMade(tag, timestamp, Plan(records, size, perPost), post, 0) == m + 1
    requires !Succeeded(post(m, CallOf(tag, Plan(records, size, perPost)[m], timestamp)))
    requires Delivered(tag, timestamp, Plan(records, size, perPost)[..m + 1], post) ==
      results + FanOut(Plan(records, size, perPost)[m], Answer(post(m, CallOf(tag, Plan(records, size, perPost)[m], timestamp))))
    ensures var plan := Plan(records, size, perPost);
      var call := CallOf(tag, plan[m], timestamp);
      StopWith(post(m, call), results, plan[m], records[next..], made + [call]).0 ==
        BatchOutcome(tag, records, timestamp, size, perPost, post)
  {
  }

  /** A post that succeeds keeps the loop on the plan. */
  lemma LoopFlushGoesOn<K, R>(tag: string, records: Records<K, R>, timestamp: Option<int>, size: nat,
                              perPost: nat, post: PostOracle<K, R>, r: nat, pending: seq<Records<K, R>>,
                              made: seq<PostCall<K, R>>, results: seq<(K, bool)>)
    requires size >= 1 && r < |records|
    requires OnPlan(tag, records, timestamp, size, perPost, post, r, pending, made, results)
    requires |pending| + 1 >= perPost || Min(r + size, |records|) >= |records| - 1
    requires Succeeded(post(|made|, CallOf(tag, pending + [records[r..Min(r + size, |records|)]], timestamp)))
    ensures var gathered := pending + [records[r..Min(r + size, |records|)]];
      var call := CallOf(tag, gathered, timestamp);
      OnPlan(tag, records, timestamp, size, perPost, post, Min(r + size, |records|), [], made + [call],
             results + FanOut(gathered, post(|made|, call).oks))
  {
    var plan := Plan(records, size, perPost);
    var m := |made|;
    LoopFlush(tag, records, timestamp, size, perPost, post, r, pending, made, results);
    PostStep(tag, timestamp, plan, post, made, results);
    assert Concat<seq<(K, R)>>([]) == [];
    assert plan[..m + 1][..m] == plan[..m];
  }

  // ---------------------------------------------------------------------------------------
  // What emitBatch promises

  /** Fail-fast: the posts after post i go on only while they succeed, at least one is made
      when one is planned, and they stop short of the plan only after a post that did not
      succeed. */
  lemma {:induction false} PostsMadeStops<K, R>(tag: string, timestamp: Option<int>,
                                                plan: seq<seq<Records<K, R>>>, post: PostOracle<K, R>, i: nat)
    requires i <= |plan|
    ensures var k := PostsMade(tag, timestamp, plan, post, i);
      (forall j :: i <= j < k - 1 ==> Succeeded(post(j, CallOf(tag, plan[j], timestamp)))) &&
      (i < |plan| ==> i < k) &&
      (k < |plan| ==> !Succeeded(post(k - 1, CallOf(tag, plan[k - 1], timestamp))))
    decreases |plan| - i
  {
    if i < |plan| && Succeeded(post(i, CallOf(tag, plan[i], timestamp))) {
      PostsMadeStops(tag, timestamp, plan, post, i + 1);
    }
  }

  /** When every planned post succeeds, all of them are made and every record is reported
      delivered. */
  lemma AllPostsSucceed<K(!new), R(!new)>(tag: string, records: Records<K, R>, timestamp: Option<int>,
                                          size: nat, perPost: nat, post: PostOracle<K, R>)
    requires size >= 1 && OnePerItem(post)
    requires forall j :: 0 <= j < |Plan(records, size, perPost)| ==>
      Succeeded(post(j, CallOf(tag, Plan(records, size, perPost)[j], timestamp)))
    ensures PostsMade(tag, timestamp, Plan(records, size, perPost), post, 0) == |Plan(records, size, perPost)|
    ensures BatchOutcome(tag, records, timestamp, size, perPost, post) == Success(Mark(records, true))
  {
    var plan := Plan(records, size, perPost);
    var k := PostsMade(tag, timestamp, plan, post, 0);
    PostsMadeStops(tag, timestamp, plan, post, 0);
    assert k == |plan|;
    assert plan[..k] == plan;
    PlanShape(records, size, perPost);
    DeliveredAllTrue(tag, timestamp, plan, post);
    if k > 0 {
      assert Succeeded(post(k - 1, CallOf(tag, plan[k - 1], timestamp)));
    }
    assert records[|records|..] == [];
    assert Mark(records, true) + Mark(records[|records|..], false) == Mark(records, true);
  }

  /** On success the results carry exactly the keys of the records, in order: one entry per
      record, whether it was posted or never sliced. */
  lemma BatchOutcomeKeys<K, R>(tag: string, records: Records<K, R>, timestamp: Option<int>,
                               size: nat, perPost: nat, post: PostOracle<K, R>)
    requires size >= 1
    ensures BatchOutcome(tag, records, timestamp, size, perPost, post).Success? ==>
      Keys(BatchOutcome(tag, records, timestamp, size, perPost, post).value) == Keys(records)
  {
    var plan := Plan(records, size, perPost);
    var k := PostsMade(tag, timestamp, plan, post, 0);
    PlanPrefix(records, size, perPost, k);
    SettledKeys(tag, timestamp, plan[..k], post, records, |Concat(Concat(plan[..k]))|);
  }

  /** The results of a failed batch: a record never sliced into a posted chunk is reported as
      not delivered. */
  lemma UnsentRecordsFail<K, R>(tag: string, records: Records<K, R>, timestamp: Option<int>,
                                size: nat, perPost: nat, post: PostOracle<K, R>, i: nat)
    requires size >= 1
    requires BatchOutcome(tag, records, timestamp, size, perPost, post).Success?
    requires |Concat(Concat(Plan(records, size, perPost)[..PostsMade(tag, timestamp, Plan(records, size, perPost), post, 0)]))| <= i < |records|
    ensures i < |BatchOutcome(tag, records, timestamp, size, perPost, post).value|
    ensures BatchOutcome(tag, records, timestamp, size, perPost, post).value[i] == (records[i].0, false)
  {
    var plan := Plan(records, size, perPost);
    var k := PostsMade(tag, timestamp, plan, post, 0);
    PlanPrefix(records, size, perPost, k);
    var sent := |Concat(Concat(plan[..k]))|;
    DeliveredKeys(tag, timestamp, plan[..k], post);
    var d := Delivered(tag, timestamp, plan[..k], post);
    assert |Keys(d)| == sent;
    var rest := Mark(records[sent..], false);
    assert (d + rest)[i] == rest[i - sent];
  }

  /** An empty array of records makes no post and gives an empty result. */
  lemma EmptyBatch<K, R>(tag: string, timestamp: Option<int>, size: nat, perPost: nat, post: PostOracle<K, R>)
    requires size >= 1
    ensures PostsMade(tag, timestamp, Plan<K, R>([], size, perPost), post, 0) == 0
    ensures BatchOutcome(tag, [], timestamp, size, perPost, post) == Success([])
  {
    var plan := Plan<K, R>([], size, perPost);
    assert plan == [];
    assert plan[..0] == [];
    assert Concat<seq<(K, R)>>([]) == [];
    assert Delivered(tag, timestamp, plan[..0], post) == [];
    var none: Records<K, R> := [];
    assert Mark(none[0..], false) == [];
    assert Concat(Concat(plan[..0])) == [];
    assert BatchOutcome(tag, none, timestamp, size, perPost, post) ==
      Success(Delivered(tag, timestamp, plan[..0], post) + Mark(none[0..], false));
    assert Delivered(tag, timestamp, plan[..0], post) + Mark(none[0..], false) == [];
  }

  // ---------------------------------------------------------------------------------------
  // The client operations

  /** emit(): one call to post() with the bare record as its only item; its first flag is the result. */
  method Emit<K(!new), R(!new)>(tag: string, record: R, timestamp: Option<int>, post: PostOracle<K, R>)
    returns (outcome: Result<bool>, calls: seq<PostCall<K, R>>)
    requires OnePerItem(post)
    ensures calls == [PostCall(tag, [Single(record)], timestamp)]
    ensures post(0, calls[0]).Replied? ==> outcome == Success(post(0, calls[0]).oks[0])
    ensures post(0, calls[0]).Threw? ==> outcome == Failure(post(0, calls[0]).error)
  {
    var call := PostCall(tag, [Single(record)], timestamp);
    calls := [call];
    match post(0, call)
    case Replied(oks) =>
      outcome := Success(oks[0]);
    case Threw(e) =>
      outcome := Failure(e);
  }

  /** The results of the posts made, followed by false for every record after them, carry
      exactly the keys of the records, in order. */
  lemma SettledKeys<K, R>(tag: string, timestamp: Option<int>, posts: seq<seq<Records<K, R>>>,
                          post: PostOracle<K, R>, records: Records<K, R>, r: nat)
    requires r <= |records| && Concat(Concat(posts)) == records[..r]
    ensures Keys(Delivered(tag, timestamp, posts, post) + Mark(records[r..], false)) == Keys(records)
  {
    DeliveredKeys(tag, timestamp, posts, post);
    KeysAppend(Delivered(tag, timestamp, posts, post), Mark(records[r..], false));
    KeysAppend(records[..r], records[r..]);
    assert records[..r] + records[r..] == records;
  }

  /** The loop over one post's reply: every key of chunk i gets the i-th flag, and a failure
      is noted when any flag is false. */
  method CollectResults<K, R>(chunks: seq<Records<K, R>>, oks: seq<bool>)
    returns (entries: seq<(K, bool)>, failureOccurred: bool)
    requires |oks| == |chunks|
    ensures entries == FanOut(chunks, oks)
    ensures failureOccurred <==> !AllTrue(oks)
  {
    entries := [];
    failureOccurred := false;
    assert chunks[..0] == [];
    for i := 0 to |oks|
      invariant entries == FanOut(chunks[..i], oks)
      invariant failureOccurred == !AllTrue(oks[..i])
    {
      assert chunks[..i + 1][..i] == chunks[..i];
      assert oks[..i + 1] == oks[..i] + [oks[i]];
      entries := entries + Mark(chunks[i], oks[i]);
      if !oks[i] {
        failureOccurred := true;
      }
    }
    assert chunks[..|oks|] == chunks;
    assert oks[..|oks|] == oks;
  }

  /** emitBatch(): slices the records into chunks, posts the chunks in groups, fans each
      chunk's flag out to its keys, and after the first post with a failure marks every record
      not yet sliced as failed and stops. An exception from post() propagates. */
  method EmitBatch<K(!new), R(!new)>(tag: string, records: Records<K, R>, timestamp: Option<int>,
                         batchSize: nat, batchesPerPost: nat, post: PostOracle<K, R>)
    returns (outcome: Result<seq<(K, bool)>>, calls: seq<PostCall<K, R>>)
    requires batchSize >= 1
    requires OnePerItem(post)
    // the posts made are the plan's first ones, in order, with the caller's tag and timestamp
    ensures |calls| == PostsMade(tag, timestamp, Plan(records, batchSize, batchesPerPost), post, 0)
    ensures forall j :: 0 <= j < |calls| ==>
      calls[j] == CallOf(tag, Plan(records, batchSize, batchesPerPost)[j], timestamp)
    ensures outcome == BatchOutcome(tag, records, timestamp, batchSize, batchesPerPost, post)
  {
    var n := |records|;
    var results: seq<(K, bool)> := [];
    var pending: seq<Records<K, R>> := [];
    var r := 0;
    calls := [];
    OnPlanInit(tag, records, timestamp, batchSize, batchesPerPost, post);
    BatchLoopOnPlan(tag, records, timestamp, batchSize, batchesPerPost, post, 0, [], [], []);
    ghost var run := BatchLoop(tag, records, timestamp, batchSize, batchesPerPost, post, 0, [], [], []);
    while r < n
      invariant r <= n
      invariant BatchLoop(tag, records, timestamp, batchSize, batchesPerPost, post, r, pending, calls, results) == run
    {
      var next := Min(r + batchSize, n);
      var batch := records[r..next];
      pending := pending + [batch];
      r := next;

      if |pending| >= batchesPerPost || r >= n - 1 {
        var call := CallOf(tag, pending, timestamp);
        var reply := post(|calls|, call);
        calls := calls + [call];
        if reply.Threw? {
          outcome := Failure(reply.error);
          return;
        }

        var entries, failureOccurred := CollectResults(pending, reply.oks);
        results := results + entries;
        if failureOccurred {
          // a post failed: every record not yet sliced is reported false, and the loop ends
          results := results + Mark(records[r..], false);
          outcome := Success(results);
          return;
        }
        pending := [];
      }
    }
    outcome := Success(results);
  }
}
