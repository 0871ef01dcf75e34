/** Any sequence of ingestion runs within the life of the set of seen keys, each failing wherever it may. */
module IngestionRuns {
  import opened Options
  import opened Ingestion

  datatype Input = Input(rows: seq<Row>, expired: set<string>, faults: Faults, chunk: nat)

  function RunOne<E>(st: State<E>, input: Input, embed: string -> E): State<E>
    requires input.chunk > 0
  {
    Ingest(st, input.rows, input.expired, input.faults, embed, input.chunk)
  }

  function RunAll<E>(st: State<E>, inputs: seq<Input>, embed: string -> E): State<E>
    requires forall i :: 0 <= i < |inputs| ==> inputs[i].chunk > 0
    decreases |inputs|
  {
    if inputs == [] then st else RunAll(RunOne(st, inputs[0], embed), inputs[1..], embed)
  }

  function Fresh<E>(): State<E> {
    State({}, [], [], [], [])
  }

  function CommittedKeys<E>(committed: seq<Stored<E>>): set<string> {
    set i | 0 <= i < |committed| :: committed[i].key
  }

  function PublishedKeys(published: seq<string>): set<string> {
    set p | p in published
  }

  ghost predicate Once(keys: seq<string>) {
    forall i, j :: 0 <= i < j < |keys| ==> keys[i] != keys[j]
  }

  /**
   published is part of committed is part of marked; nothing twice; every row embeds its own text; every
   content published is a committed row's; the table holds committed rows only.
   */
  ghost predicate Inv<E(!new)>(st: State<E>, embed: string -> E) {
    && PublishedKeys(st.published) <= CommittedKeys(st.committed) <= st.marked
    && Once(st.published)
    && DistinctKeys(st.committed)
    && OwnEmbedding(st.committed, embed)
    && ContentsStored(st.contents, st.committed)
    && forall r :: r in st.table ==> r in st.committed
  }

  ghost predicate ContentsStored<E(!new)>(contents: seq<string>, committed: seq<Stored<E>>) {
    forall c :: c in contents ==> exists r :: r in committed && r.content == c
  }

  /** The items of a pass have new, distinct keys, all of them marked by the end of it. */
  lemma {:induction false} SanitizeIsFresh(rows: seq<Row>, marked: set<string>)
    ensures var p := Sanitize(rows, marked);
            && marked <= p.marked
            && (forall i :: 0 <= i < |p.items| ==> p.items[i].key in p.marked && p.items[i].key !in marked)
            && (forall i, j :: 0 <= i < j < |p.items| ==> p.items[i].key != p.items[j].key)
    decreases |rows|
  {
    if rows != [] {
      SanitizeIsFresh(rows[..|rows| - 1], marked);
    }
  }

  lemma {:induction false} KeysOfConcat<E>(a: seq<Stored<E>>, b: seq<Stored<E>>)
    ensures CommittedKeys(a + b) == CommittedKeys(a) + CommittedKeys(b)
  {
    forall k | k in CommittedKeys(b) ensures k in CommittedKeys(a + b) {
      var i :| 0 <= i < |b| && b[i].key == k;
      assert (a + b)[|a| + i].key == k;
    }
    forall k | k in CommittedKeys(a) ensures k in CommittedKeys(a + b) {
      var i :| 0 <= i < |a| && a[i].key == k;
      assert (a + b)[i].key == k;
    }
  }

  ghost predicate DistinctKeys<E>(committed: seq<Stored<E>>) {
    forall i, j :: 0 <= i < j < |committed| ==> committed[i].key != committed[j].key
  }

  ghost predicate OwnEmbedding<E(!new)>(committed: seq<Stored<E>>, embed: string -> E) {
    forall i :: 0 <= i < |committed| ==> committed[i].embedding == embed(committed[i].content)
  }

  lemma {:induction false} DistinctConcat<E>(a: seq<Stored<E>>, b: seq<Stored<E>>, marked: set<string>)
    requires DistinctKeys(a) && DistinctKeys(b)
    requires CommittedKeys(a) <= marked && forall i :: 0 <= i < |b| ==> b[i].key !in marked
    ensures DistinctKeys(a + b)
  {
    assert forall i :: 0 <= i < |a| ==> a[i].key in CommittedKeys(a);
  }

  lemma {:induction false} OnceConcat(a: seq<string>, b: seq<string>, marked: set<string>)
    requires Once(a) && Once(b)
    requires PublishedKeys(a) <= marked && forall i :: 0 <= i < |b| ==> b[i] !in marked
    ensures Once(a + b)
    ensures PublishedKeys(a + b) == PublishedKeys(a) + PublishedKeys(b)
  {
    assert forall i :: 0 <= i < |a| ==> a[i] in PublishedKeys(a);
  }

  lemma ContentsConcat<E(!new)>(contents: seq<string>, sent: seq<string>, committed: seq<Stored<E>>,
                                rows: seq<Stored<E>>)
    requires ContentsStored(contents, committed)
    requires |sent| <= |rows| && forall i :: 0 <= i < |sent| ==> sent[i] == rows[i].content
    ensures ContentsStored(contents + sent, committed + rows)
  {
    forall c | c in contents + sent ensures exists r :: r in committed + rows && r.content == c {
      if c in contents {
        var r :| r in committed && r.content == c;
        assert r in committed + rows;
      } else {
        var i :| 0 <= i < |sent| && sent[i] == c;
        assert rows[i] in committed + rows;
      }
    }
  }

  lemma CommitKeepsInv<E(!new)>(st: State<E>, after: State<E>, items: seq<Item>, rows: seq<Stored<E>>, sent: Sent,
                                embed: string -> E)
    requires Inv(st, embed) && st.marked <= after.marked
    requires forall i :: 0 <= i < |items| ==> items[i].key in after.marked && items[i].key !in st.marked
    requires forall i, j :: 0 <= i < j < |items| ==> items[i].key != items[j].key
    requires rows == Rows(items, embed) && after.committed == st.committed + rows
    requires |sent.keys| <= |items| && forall i :: 0 <= i < |sent.keys| ==> sent.keys[i] == items[i].key
    requires |sent.contents| <= |items| && forall i :: 0 <= i < |sent.contents| ==> sent.contents[i] == items[i].text
    requires after.published == st.published + sent.keys && after.contents == st.contents + sent.contents
    requires forall r :: r in after.table ==> r in st.table || r in rows
    ensures Inv(after, embed)
  {
    KeysOfConcat(st.committed, rows);
    DistinctConcat(st.committed, rows, st.marked);
    OnceConcat(st.published, sent.keys, st.marked);
    ContentsConcat(st.contents, sent.contents, st.committed, rows);
    forall k | k in PublishedKeys(sent.keys) ensures k in CommittedKeys(rows) {
      var i :| 0 <= i < |sent.keys| && sent.keys[i] == k;
      assert rows[i].key == k;
    }
  }

  lemma IngestKeepsInv<E(!new)>(st: State<E>, input: Input, embed: string -> E)
    requires Inv(st, embed) && input.chunk > 0
    ensures Inv(RunOne(st, input, embed), embed)
  {
    var p := Sanitize(input.rows, st.marked);
    SanitizeIsFresh(input.rows, st.marked);
    if Commits(st.marked, input.rows, input.faults, input.chunk) {
      var sent := SentAfter(p.items, CallsMade(|p.items|, input.faults.publishCall));
      CommitKeepsInv(st, RunOne(st, input, embed), p.items, Rows(p.items, embed), sent, embed);
    }
  }

  lemma {:induction false} RunsKeepInv<E(!new)>(st: State<E>, inputs: seq<Input>, embed: string -> E)
    requires Inv(st, embed) && forall i :: 0 <= i < |inputs| ==> inputs[i].chunk > 0
    ensures Inv(RunAll(st, inputs, embed), embed)
    decreases |inputs|
  {
    if inputs != [] {
      IngestKeepsInv(st, inputs[0], embed);
      RunsKeepInv(RunOne(st, inputs[0], embed), inputs[1..], embed);
    }
  }

  /** From an empty start, whatever fails: published, committed and marked keys nest, and nothing happens twice. */
  lemma NothingTwice<E(!new)>(inputs: seq<Input>, embed: string -> E)
    requires forall i :: 0 <= i < |inputs| ==> inputs[i].chunk > 0
    ensures Inv(RunAll(Fresh(), inputs, embed), embed)
  {
    RunsKeepInv(Fresh(), inputs, embed);
  }

  // What is_duplicate tells

  predicate HasKey(row: Row, key: string) {
    !row.Malformed? && row.key == key
  }

  /** The row's key was not marked before the pass, and it is the first row with it. */
  ghost predicate New(rows: seq<Row>, marked: set<string>, k: nat)
    requires k < |rows|
  {
    !rows[k].Malformed? && rows[k].key !in marked && forall j :: 0 <= j < k ==> !HasKey(rows[j], rows[k].key)
  }

  /** A row that cannot be normalised raises, and a row that cannot be serialised does if it is new. */
  ghost predicate Raises(rows: seq<Row>, marked: set<string>, k: nat)
    requires k < |rows|
  {
    rows[k].Malformed? || (rows[k].Unserializable? && New(rows, marked, k))
  }

  ghost predicate Reached(rows: seq<Row>, marked: set<string>, k: nat)
    requires k < |rows|
  {
    forall j :: 0 <= j < k ==> !Raises(rows, marked, j)
  }

  ghost predicate Picked(rows: seq<Row>, marked: set<string>, k: nat)
    requires k < |rows|
  {
    rows[k].Good? && New(rows, marked, k) && Reached(rows, marked, k)
  }

  /** `ks` are the rows picked, in order, and `items` are they, each with its own key and text. */
  ghost predicate Taken(rows: seq<Row>, marked: set<string>, ks: seq<nat>, items: seq<Item>) {
    && |ks| == |items|
    && (forall i, j :: 0 <= i < j < |ks| ==> ks[i] < ks[j])
    && (forall i :: 0 <= i < |ks| ==>
          ks[i] < |rows| && Picked(rows, marked, ks[i]) && rows[ks[i]] == Good(items[i].key, items[i].text))
    && (forall k :: 0 <= k < |rows| && Picked(rows, marked, k) ==> k in ks)
  }

  lemma PrefixSees(rows: seq<Row>, marked: set<string>, n: nat, k: nat)
    requires k < n <= |rows|
    ensures New(rows[..n], marked, k) == New(rows, marked, k)
    ensures Raises(rows[..n], marked, k) == Raises(rows, marked, k)
    ensures Reached(rows[..n], marked, k) == Reached(rows, marked, k)
  {
    assert forall j :: 0 <= j <= k ==> rows[..n][j] == rows[j];
    forall j | 0 <= j < k ensures Raises(rows[..n], marked, j) == Raises(rows, marked, j) {
      assert New(rows[..n], marked, j) == New(rows, marked, j);
    }
  }

  /** One of the first n rows has the key, and was reached. */
  ghost predicate ReachedWith(rows: seq<Row>, marked: set<string>, n: nat, key: string)
    requires n <= |rows|
  {
    exists k :: 0 <= k < n && HasKey(rows[k], key) && Reached(rows, marked, k)
  }

  ghost predicate SomeRaises(rows: seq<Row>, marked: set<string>, n: nat)
    requires n <= |rows|
  {
    exists k :: 0 <= k < n && Raises(rows, marked, k)
  }

  lemma PrefixReaches(rows: seq<Row>, marked: set<string>, n: nat, key: string)
    requires n <= |rows|
    ensures ReachedWith(rows[..n], marked, n, key) == ReachedWith(rows, marked, n, key)
    ensures SomeRaises(rows[..n], marked, n) == SomeRaises(rows, marked, n)
  {
    forall k | 0 <= k < n
      ensures Raises(rows[..n], marked, k) == Raises(rows, marked, k)
      ensures Reached(rows[..n], marked, k) == Reached(rows, marked, k)
    {
      PrefixSees(rows, marked, n, k);
    }
  }

  /**
   After a pass the keys marked are those of before and those of the rows reached before one raised; the
   pass raises exactly if some row does.
   */
  lemma {:induction false} MarkedIffReached(rows: seq<Row>, marked: set<string>, key: string)
    ensures Sanitize(rows, marked).raised <==> SomeRaises(rows, marked, |rows|)
    ensures key in Sanitize(rows, marked).marked <==> key in marked || ReachedWith(rows, marked, |rows|, key)
    decreases |rows|
  {
    if rows != [] {
      var n := |rows| - 1;
      var own := if rows[n].Malformed? then key else rows[n].key;
      MarkedIffReached(rows[..n], marked, key);
      MarkedIffReached(rows[..n], marked, own);
      PrefixReaches(rows, marked, n, key);
      PrefixReaches(rows, marked, n, own);
      LastRow(rows, marked, Sanitize(rows[..n], marked), key);
    }
  }

  lemma NewUnlessReached(rows: seq<Row>, marked: set<string>, n: nat)
    requires n < |rows| && !rows[n].Malformed? && !SomeRaises(rows, marked, n)
    ensures New(rows, marked, n) <==> rows[n].key !in marked && !ReachedWith(rows, marked, n, rows[n].key)
    ensures Reached(rows, marked, n)
  {
    forall k | 0 <= k < n ensures Reached(rows, marked, k) {}
  }

  /** What the last row adds to a pass over those before it. */
  lemma LastRow(rows: seq<Row>, marked: set<string>, p: Pass, key: string)
    requires rows != [] && p == Sanitize(rows[..|rows| - 1], marked)
    requires var n := |rows| - 1; var own := if rows[n].Malformed? then key else rows[n].key;
             && (p.raised <==> SomeRaises(rows, marked, n))
             && (key in p.marked <==> key in marked || ReachedWith(rows, marked, n, key))
             && (own in p.marked <==> own in marked || ReachedWith(rows, marked, n, own))
    ensures Sanitize(rows, marked).raised <==> SomeRaises(rows, marked, |rows|)
    ensures key in Sanitize(rows, marked).marked <==> key in marked || ReachedWith(rows, marked, |rows|, key)
  {
    var n := |rows| - 1;
    assert SomeRaises(rows, marked, |rows|) <==> SomeRaises(rows, marked, n) || Raises(rows, marked, n);
    assert ReachedWith(rows, marked, |rows|, key) <==>
      ReachedWith(rows, marked, n, key) || (HasKey(rows[n], key) && Reached(rows, marked, n));
    assert Reached(rows, marked, n) <==> !SomeRaises(rows, marked, n);
    if !p.raised && !rows[n].Malformed? { NewUnlessReached(rows, marked, n); }
  }

  /**
   What a pass collects: of the rows reached before one raises, those that can be serialised and are the
   first with a key not seen before, in row order, each with its own key and its own text.
   */
  lemma {:induction false} ItemsAreFirstRows(rows: seq<Row>, marked: set<string>) returns (ks: seq<nat>)
    ensures Taken(rows, marked, ks, Sanitize(rows, marked).items)
    decreases |rows|
  {
    ks := [];
    if rows != [] {
      var n := |rows| - 1;
      ks := ItemsAreFirstRows(rows[..n], marked);
      PickedLast(rows, marked, n);
      PickedBefore(rows, marked, ks, n);
      if Picked(rows, marked, n) {
        ks := ks + [n];
      }
    }
  }

  lemma PickedBefore(rows: seq<Row>, marked: set<string>, ks: seq<nat>, n: nat)
    requires n < |rows| && Taken(rows[..n], marked, ks, Sanitize(rows[..n], marked).items)
    ensures forall k :: 0 <= k < n ==> Picked(rows[..n], marked, k) == Picked(rows, marked, k)
    ensures forall i :: 0 <= i < |ks| ==> ks[i] < n
  {
    forall k | 0 <= k < n ensures Picked(rows[..n], marked, k) == Picked(rows, marked, k) {
      PrefixSees(rows, marked, n, k);
    }
  }

  /** The last row makes an item exactly if it is picked. */
  lemma PickedLast(rows: seq<Row>, marked: set<string>, n: nat)
    requires n + 1 == |rows|
    ensures var front, p := Sanitize(rows[..n], marked), Sanitize(rows, marked);
            p.items == front.items + if Picked(rows, marked, n) then [Item(rows[n].key, rows[n].text)] else []
  {
    var own := if rows[n].Malformed? then "" else rows[n].key;
    MarkedIffReached(rows[..n], marked, own);
    PrefixReaches(rows, marked, n, own);
    assert Reached(rows, marked, n) <==> !SomeRaises(rows, marked, n);
    if !SomeRaises(rows, marked, n) && !rows[n].Malformed? { NewUnlessReached(rows, marked, n); }
  }

  /** A key that is not a duplicate has, in any run so far, neither been stored nor published. */
  lemma UnseenIsNew<E(!new)>(inputs: seq<Input>, embed: string -> E, key: string)
    requires forall i :: 0 <= i < |inputs| ==> inputs[i].chunk > 0
    requires key !in RunAll(Fresh<E>(), inputs, embed).marked
    ensures var st := RunAll(Fresh(), inputs, embed);
            key !in CommittedKeys(st.committed) && key !in CommittedKeys(st.table) && key !in st.published
  {
    var st := RunAll(Fresh(), inputs, embed);
    NothingTwice(inputs, embed);
    forall r | r in st.table ensures r.key != key {
      KeyOfRow(st.committed, r);
    }
    assert forall k :: k in st.published ==> k in PublishedKeys(st.published);
  }

  lemma KeyOfRow<E>(rows: seq<Stored<E>>, r: Stored<E>)
    requires r in rows
    ensures r.key in CommittedKeys(rows)
  {
    var i :| 0 <= i < |rows| && rows[i] == r;
  }

  // Where everything comes from

  /** Some run was given a row with this key and this text. */
  ghost predicate Given(inputs: seq<Input>, key: string, text: string) {
    exists i, k :: 0 <= i < |inputs| && 0 <= k < |inputs[i].rows| && inputs[i].rows[k] == Good(key, text)
  }

  lemma {:induction false} CommittedWereGiven<E(!new)>(st: State<E>, done: seq<Input>, inputs: seq<Input>,
                                                       embed: string -> E)
    requires forall i :: 0 <= i < |inputs| ==> inputs[i].chunk > 0
    requires forall r :: r in st.committed ==> Given(done, r.key, r.content)
    ensures forall r :: r in RunAll(st, inputs, embed).committed ==> Given(done + inputs, r.key, r.content)
    decreases |inputs|
  {
    if inputs == [] {
      assert done + inputs == done;
    } else {
      var next := RunOne(st, inputs[0], embed);
      forall r | r in next.committed ensures Given(done + [inputs[0]], r.key, r.content) {
        OneRunGives(st, done, inputs[0], embed, r);
      }
      CommittedWereGiven(next, done + [inputs[0]], inputs[1..], embed);
      assert done + [inputs[0]] + inputs[1..] == done + inputs;
    }
  }

  lemma OneRunGives<E(!new)>(st: State<E>, done: seq<Input>, input: Input, embed: string -> E, r: Stored<E>)
    requires input.chunk > 0 && r in RunOne(st, input, embed).committed
    requires r in st.committed ==> Given(done, r.key, r.content)
    ensures Given(done + [input], r.key, r.content)
  {
    var more := done + [input];
    if r in st.committed {
      var i, k :| 0 <= i < |done| && 0 <= k < |done[i].rows| && done[i].rows[k] == Good(r.key, r.content);
      assert more[i].rows[k] == Good(r.key, r.content);
    } else {
      var p := Sanitize(input.rows, st.marked);
      var ks := ItemsAreFirstRows(input.rows, st.marked);
      var rows := Rows(p.items, embed);
      assert r in rows;
      var j :| 0 <= j < |rows| && rows[j] == r;
      assert more[|done|].rows[ks[j]] == Good(r.key, r.content);
    }
  }

  /** Over any runs, what is committed or published is the key and the text of a row some run was given. */
  lemma {:induction false} EverythingWasGiven<E(!new)>(inputs: seq<Input>, embed: string -> E)
    requires forall i :: 0 <= i < |inputs| ==> inputs[i].chunk > 0
    ensures var st := RunAll(Fresh(), inputs, embed);
            && (forall r :: r in st.committed ==> Given(inputs, r.key, r.content) && r.embedding == embed(r.content))
            && (forall r :: r in st.table ==> Given(inputs, r.key, r.content))
            && (forall key :: key in st.published ==> exists text :: Given(inputs, key, text))
            && (forall text :: text in st.contents ==> exists key :: Given(inputs, key, text))
  {
    var st := RunAll(Fresh(), inputs, embed);
    NothingTwice(inputs, embed);
    CommittedWereGiven(Fresh(), [], inputs, embed);
    assert [] + inputs == inputs;
    forall key | key in st.published ensures exists text :: Given(inputs, key, text) {
      assert key in PublishedKeys(st.published);
      var i :| 0 <= i < |st.committed| && st.committed[i].key == key;
      assert Given(inputs, key, st.committed[i].content);
    }
    forall text | text in st.contents ensures exists key :: Given(inputs, key, text) {
      var r :| r in st.committed && r.content == text;
      assert Given(inputs, r.key, text);
    }
  }

  // What one run does, stage by stage

  /** Something goes wrong before the rows are committed; chunk c exists if there is an item number c * chunk. */
  ghost predicate FailsEarly(marked: set<string>, input: Input) {
    var f := input.faults;
    || f.purge || f.fetch || f.commit
    || SomeRaises(input.rows, marked, |input.rows|)
    || (f.chunk.Some? && f.chunk.value * input.chunk < |Sanitize(input.rows, marked).items|)
  }

  /** A run commits exactly if nothing fails early, and ends well exactly if no call it then makes fails either. */
  lemma CommitsIff(marked: set<string>, input: Input)
    requires input.chunk > 0
    ensures Commits(marked, input.rows, input.faults, input.chunk) <==> !FailsEarly(marked, input)
    ensures Completes(marked, input.rows, input.faults, input.chunk) <==>
            && !FailsEarly(marked, input)
            && forall k :: 0 <= k < 3 * |Sanitize(input.rows, marked).items| ==> input.faults.publishCall != Some(k)
  {
    MarkedIffReached(input.rows, marked, "");
    var n := |Sanitize(input.rows, marked).items|;
    if input.faults.chunk.Some? {
      var c := input.faults.chunk.value;
      if c * input.chunk < n {
        ChunkIndex(n, input.chunk, c);
      } else {
        ChunkCount(n, input.chunk, c);
      }
    }
  }

  /** `out` is the front of `all` that is made by the calls 3 * i + nth before the failing one. */
  ghost predicate OutBefore(out: seq<string>, all: seq<string>, nth: nat, failing: Option<nat>) {
    && out <= all
    && forall i :: 0 <= i < |all| ==> (i < |out| <==> failing.None? || 3 * i + nth < failing.value)
  }

  lemma SentMeans(items: seq<Item>, failing: Option<nat>)
    ensures var sent := SentAfter(items, CallsMade(|items|, failing));
            OutBefore(sent.keys, Keys(items), 0, failing) && OutBefore(sent.contents, Texts(items), 1, failing)
  {
  }

  /** A purge keeps the rows whose keys it is not given, in order and each as often as it is there. */
  lemma PurgeLast<E>(table: seq<Stored<E>>, r: Stored<E>, expired: set<string>)
    ensures Without<E>([], expired) == []
    ensures Without(table + [r], expired) == Without(table, expired) + if r.key in expired then [] else [r]
  {
    assert (table + [r])[..|table|] == table;
  }

  /**
   A failing purge changes nothing at all; otherwise the rows whose keys are past retention leave the table,
   whatever happens after. A run that fails early commits and publishes nothing, and any other run commits a row
   for each item, with the embedding of its own text, and publishes the key and the text of each up to the
   call that fails.
   */
  lemma RunMeans<E(!new)>(st: State<E>, input: Input, embed: string -> E)
    requires input.chunk > 0
    ensures var after := RunOne(st, input, embed);
            var items := Sanitize(input.rows, st.marked).items;
            && (input.faults.purge ==> after == st)
            && (!input.faults.purge ==>
                  && st.committed <= after.committed
                  && after.table == Without(st.table, input.expired) + after.committed[|st.committed|..])
            && (FailsEarly(st.marked, input) ==>
                  after.committed == st.committed && after.published == st.published && after.contents == st.contents)
            && (!FailsEarly(st.marked, input) ==>
                  && |after.committed| == |st.committed| + |items| && st.committed <= after.committed
                  && (forall i :: 0 <= i < |items| ==>
                        after.committed[|st.committed| + i]
                        == Stored(items[i].key, items[i].text, embed(items[i].text)))
                  && st.published <= after.published && st.contents <= after.contents
                  && OutBefore(after.published[|st.published|..], Keys(items), 0, input.faults.publishCall)
                  && OutBefore(after.contents[|st.contents|..], Texts(items), 1, input.faults.publishCall))
  {
    CommitsIff(st.marked, input);
    SentMeans(Sanitize(input.rows, st.marked).items, input.faults.publishCall);
  }

  // Which runs lose a signal

  lemma {:induction false} SanitizeMarksItems(rows: seq<Row>, marked: set<string>)
    ensures var p := Sanitize(rows, marked);
            !p.raised ==> p.marked == marked + set i | 0 <= i < |p.items| :: p.items[i].key
    decreases |rows|
  {
    if rows != [] {
      SanitizeMarksItems(rows[..|rows| - 1], marked);
      var p, before := Sanitize(rows, marked), Sanitize(rows[..|rows| - 1], marked);
      if !p.raised && p.items != before.items {
        assert forall i :: 0 <= i < |before.items| ==> p.items[i] == before.items[i];
        var n := |before.items|;
        var added := set i | 0 <= i < n :: before.items[i].key;
        var all := set i | 0 <= i < |p.items| :: p.items[i].key;
        assert p.items[n].key in all;
        assert forall k :: k in added ==> k in all by {
          forall k | k in added ensures k in all {
            var i :| 0 <= i < n && before.items[i].key == k;
            assert p.items[i].key == k;
          }
        }
        assert all == added + {p.items[n].key};
      }
    }
  }

  /**
   A run commits every key it marks exactly if it commits at all, or has nothing new to mark: it fails
   before fetching, or each row it reaches is a duplicate.
   */
  predicate KeepsAll(marked: set<string>, input: Input)
    requires input.chunk > 0
  {
    || Commits(marked, input.rows, input.faults, input.chunk)
    || input.faults.purge || input.faults.fetch
    || Sanitize(input.rows, marked).marked == marked
  }

  /** With every marked key committed so far, it stays so after a run exactly under that condition. */
  lemma RunLosesNothingIff<E(!new)>(st: State<E>, input: Input, embed: string -> E)
    requires CommittedKeys(st.committed) == st.marked && input.chunk > 0
    ensures var after := RunOne(st, input, embed);
            CommittedKeys(after.committed) == after.marked <==> KeepsAll(st.marked, input)
  {
    if Commits(st.marked, input.rows, input.faults, input.chunk) {
      var p := Sanitize(input.rows, st.marked);
      var rows := Rows(p.items, embed);
      SanitizeMarksItems(input.rows, st.marked);
      KeysOfConcat(st.committed, rows);
      KeysOfRows(p.items, embed);
    }
  }

  lemma KeysOfRows<E>(items: seq<Item>, embed: string -> E)
    ensures CommittedKeys(Rows(items, embed)) == set i | 0 <= i < |items| :: items[i].key
  {
    var rows := Rows(items, embed);
    forall k | k in (set i | 0 <= i < |items| :: items[i].key) ensures k in CommittedKeys(rows) {
      var i :| 0 <= i < |items| && items[i].key == k;
      assert rows[i].key == k;
    }
    forall k | k in CommittedKeys(rows) ensures k in (set i | 0 <= i < |items| :: items[i].key) {
      var i :| 0 <= i < |rows| && rows[i].key == k;
      assert items[i].key == k;
    }
  }

  /** A key that was marked by a run that failed before its commit is never committed by a later run. */
  lemma {:induction false} MarkedButLostStaysLost<E(!new)>(st: State<E>, inputs: seq<Input>, embed: string -> E,
                                                          key: string)
    requires key in st.marked && key !in CommittedKeys(st.committed)
    requires forall i :: 0 <= i < |inputs| ==> inputs[i].chunk > 0
    ensures var after := RunAll(st, inputs, embed);
            key in after.marked && key !in CommittedKeys(after.committed)
    decreases |inputs|
  {
    if inputs != [] {
      var p := Sanitize(inputs[0].rows, st.marked);
      SanitizeIsFresh(inputs[0].rows, st.marked);
      KeysOfConcat(st.committed, Rows(p.items, embed));
      KeysOfRows(p.items, embed);
      MarkedButLostStaysLost(RunOne(st, inputs[0], embed), inputs[1..], embed, key);
    }
  }

  /** Every run of the sequence, in the state it starts in, keeps what it marks. */
  predicate AllKeep<E>(st: State<E>, inputs: seq<Input>, embed: string -> E)
    requires forall i :: 0 <= i < |inputs| ==> inputs[i].chunk > 0
    decreases |inputs|
  {
    inputs == [] || (KeepsAll(st.marked, inputs[0]) && AllKeep(RunOne(st, inputs[0], embed), inputs[1..], embed))
  }

  /** Over any sequence of runs every signal seen is stored exactly if every single run kept what it marked. */
  lemma {:induction false} RunsLoseNothingIff<E(!new)>(st: State<E>, inputs: seq<Input>, embed: string -> E)
    requires CommittedKeys(st.committed) == st.marked
    requires forall i :: 0 <= i < |inputs| ==> inputs[i].chunk > 0
    requires Inv(st, embed)
    ensures var after := RunAll(st, inputs, embed);
            CommittedKeys(after.committed) == after.marked <==> AllKeep(st, inputs, embed)
    decreases |inputs|
  {
    if inputs != [] {
      var next := RunOne(st, inputs[0], embed);
      RunLosesNothingIff(st, inputs[0], embed);
      IngestKeepsInv(st, inputs[0], embed);
      if KeepsAll(st.marked, inputs[0]) {
        RunsLoseNothingIff(next, inputs[1..], embed);
      } else {
        var key :| key in next.marked && key !in CommittedKeys(next.committed);
        MarkedButLostStaysLost(next, inputs[1..], embed, key);
      }
    }
  }

  /** A first run whose commit fails, and after it any runs at all: its one signal is never stored. */
  lemma {:induction false} FailedCommitLosesItsSignal<E(!new)>(key: string, text: string, chunk: nat, later: seq<Input>,
                                            embed: string -> E)
    requires chunk > 0 && forall i :: 0 <= i < |later| ==> later[i].chunk > 0
    ensures var first := Input([Good(key, text)], {}, Faults(false, false, None, true, None), chunk);
            var after := RunAll(Fresh(), [first] + later, embed);
            key in after.marked && key !in CommittedKeys(after.committed)
  {
    var first := Input([Good(key, text)], {}, Faults(false, false, None, true, None), chunk);
    assert first.rows[..0] == [];
    assert Sanitize(first.rows, {}) == SanitizeRow(Sanitize([], {}), Good(key, text));
    assert ([first] + later)[1..] == later;
    MarkedButLostStaysLost(RunOne(Fresh(), first, embed), later, embed, key);
  }

  // The table

  /** Rows leave the table by a purge of their key and in no other way. */
  lemma {:induction false} RowsLeaveByPurge<E(!new)>(st: State<E>, inputs: seq<Input>, embed: string -> E, r: Stored<E>)
    requires forall i :: 0 <= i < |inputs| ==> inputs[i].chunk > 0 && r.key !in inputs[i].expired
    requires r in st.table <==> r in st.committed
    ensures var after := RunAll(st, inputs, embed);
            r in after.table <==> r in after.committed
    decreases |inputs|
  {
    if inputs != [] {
      assert inputs[0].chunk > 0 && r.key !in inputs[0].expired;
      RowsLeaveByPurge(RunOne(st, inputs[0], embed), inputs[1..], embed, r);
    }
  }
}
