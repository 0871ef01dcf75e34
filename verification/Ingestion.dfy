/**
 One ingestion run after another: purge old rows, mark keys as seen, embed in chunks, commit all rows at
 once, publish one by one. A run may fail at any stage; what it has done by then stays done.
 */
module Ingestion {
  import opened Options

  /** A fetched row: fine, or raising while it is normalised, or after its key has been marked. */
  datatype Row =
    | Good(key: string, text: string)
    | Malformed
    | Unserializable(key: string)

  /** A signal that passed the duplicate check. */
  datatype Item = Item(key: string, text: string)

  /** A committed row; the table has no key column, the key is kept here to say which signal it came from. */
  datatype Stored<E> = Stored(key: string, content: string, embedding: E)

  /** Where this run fails, if anywhere: the purge, the fetch, which chunk, the commit, which publish call. */
  datatype Faults = Faults(purge: bool, fetch: bool, chunk: Option<nat>, commit: bool, publishCall: Option<nat>)

  /** `committed` records every row ever committed; `table` holds those that have not been purged. */
  datatype State<E> = State(
    marked: set<string>,
    committed: seq<Stored<E>>,
    table: seq<Stored<E>>,
    published: seq<string>,
    contents: seq<string>)

  // What a run does, in one piece

  datatype Pass = Pass(marked: set<string>, items: seq<Item>, raised: bool)

  /** The first loop: rows in order, until one raises. */
  function Sanitize(rows: seq<Row>, marked: set<string>): Pass {
    if rows == [] then Pass(marked, [], false)
    else
      var p := Sanitize(rows[..|rows| - 1], marked);
      if p.raised then p else SanitizeRow(p, rows[|rows| - 1])
  }

  function SanitizeRow(p: Pass, row: Row): Pass {
    match row
    case Malformed => p.(raised := true)
    case Good(key, text) =>
      if key in p.marked then p else Pass(p.marked + {key}, p.items + [Item(key, text)], false)
    case Unserializable(key) =>
      if key in p.marked then p else Pass(p.marked + {key}, p.items, true)
  }

  /** Each item with the embedding of its own text. */
  function Rows<E>(items: seq<Item>, embed: string -> E): seq<Stored<E>> {
    seq(|items|, i requires 0 <= i < |items| => Stored(items[i].key, items[i].text, embed(items[i].text)))
  }

  function Chunks(n: nat, chunk: nat): nat
    requires chunk > 0
  {
    (n + chunk - 1) / chunk
  }

  datatype Sent = Sent(keys: seq<string>, contents: seq<string>)

  /**
   What is out after so many calls. Of the three calls made for an item the first publishes its key, the
   second its content, and the third stores its keywords.
   */
  function SentAfter(items: seq<Item>, calls: nat): Sent
    requires calls <= 3 * |items|
  {
    Sent(Keys(items[..(calls + 2) / 3]), Texts(items[..(calls + 1) / 3]))
  }

  function CallsMade(n: nat, failing: Option<nat>): (calls: nat)
    ensures calls <= 3 * n
  {
    if failing.Some? then Min(failing.value, 3 * n) else 3 * n
  }

  function Min(a: nat, b: nat): nat {
    if a < b then a else b
  }

  /** DELETE of the rows past their retention; `expired` says which these are. */
  function Without<E>(table: seq<Stored<E>>, expired: set<string>): (left: seq<Stored<E>>)
    ensures forall r :: r in left ==> r in table && r.key !in expired
    ensures forall r :: r in table && r.key !in expired ==> r in left
  {
    if table == [] then []
    else
      var last := table[|table| - 1];
      assert table == table[..|table| - 1] + [last];
      Without(table[..|table| - 1], expired) + if last.key in expired then [] else [last]
  }

  function Ingest<E>(st: State<E>, rows: seq<Row>, expired: set<string>, f: Faults, embed: string -> E, chunk: nat)
    : State<E>
    requires chunk > 0
  {
    if f.purge then st
    else
      var kept := Without(st.table, expired);
      if f.fetch then st.(table := kept)
      else
        var p := Sanitize(rows, st.marked);
        var n := |p.items|;
        if !Commits(st.marked, rows, f, chunk) then st.(marked := p.marked, table := kept)
        else
          var sent := SentAfter(p.items, CallsMade(n, f.publishCall));
          var added := Rows(p.items, embed);
          State(p.marked, st.committed + added, kept + added, st.published + sent.keys, st.contents + sent.contents)
  }

  /** Whether the run gets as far as committing its rows. */
  predicate Commits(marked: set<string>, rows: seq<Row>, f: Faults, chunk: nat)
    requires chunk > 0
  {
    var p := Sanitize(rows, marked);
    && !f.purge && !f.fetch && !p.raised && !f.commit
    && (f.chunk.Some? ==> f.chunk.value >= Chunks(|p.items|, chunk))
  }

  /** Whether the run gets to its end without raising. */
  predicate Completes(marked: set<string>, rows: seq<Row>, f: Faults, chunk: nat)
    requires chunk > 0
  {
    && Commits(marked, rows, f, chunk)
    && (f.publishCall.Some? ==> f.publishCall.value >= 3 * |Sanitize(rows, marked).items|)
  }

  /** What is left at this time: Redis drops the whole set of seen keys at its deadline. */
  function Alive<E>(st: State<E>, deadline: nat, now: nat): State<E> {
    if now < deadline then st else st.(marked := {})
  }

  /** Only a new key moves the deadline. */
  function DeadlineAfter(before: set<string>, after: set<string>, deadline: nat, now: nat, ttl: nat): nat {
    if after == before then deadline else now + ttl
  }

  function Keys(items: seq<Item>): seq<string> {
    seq(|items|, i requires 0 <= i < |items| => items[i].key)
  }

  function Texts(items: seq<Item>): seq<string> {
    seq(|items|, i requires 0 <= i < |items| => items[i].text)
  }

  // The code

  class SignalPipeline<E> {
    var marked: set<string>
    var committed: seq<Stored<E>>
    var table: seq<Stored<E>>
    var published: seq<string>
    var contents: seq<string>
    var deadline: nat
    const ttl: nat
    const embed: string -> E

    constructor (embed: string -> E, ttl: nat)
      requires ttl > 0
      ensures this.embed == embed && this.ttl == ttl
      ensures State(marked, committed, table, published, contents) == State({}, [], [], [], [])
    {
      this.embed, this.ttl, deadline := embed, ttl, 0;
      marked, committed, table, published, contents := {}, [], [], [], [];
    }

    function View(): State<E>
      reads this
    {
      State(marked, committed, table, published, contents)
    }

    method PurgeOldSignals(expired: set<string>)
      modifies this`table
      ensures forall r :: r in table ==> r in old(table) && r.key !in expired
      ensures forall r :: r in old(table) && r.key !in expired ==> r in table
      ensures table == Without(old(table), expired)
    {
      table := Without(table, expired);
    }

    /** Redis drops the set when its time has come. */
    method Expire(now: nat)
      modifies this`marked
      ensures View() == Alive(old(View()), deadline, now)
    {
      if now >= deadline {
        marked := {};
      }
    }

    /** At the start of a process: a set that is there is given a whole TTL again. */
    method Initialize(now: nat)
      modifies this`marked, this`deadline
      ensures View() == Alive(old(View()), old(deadline), now)
      ensures deadline == now + ttl
    {
      Expire(now);
      if marked == {} {
        marked := {"__init__"};
        deadline := now + ttl;
        marked := marked - {"__init__"};
      } else {
        deadline := now + ttl;
      }
    }

    method IsDuplicate(key: string) returns (seen: bool)
      ensures seen <==> key in marked
    {
      seen := key in marked;
    }

    method AddKey(key: string, now: nat)
      modifies this`marked, this`deadline
      ensures marked == old(marked) + {key}
      ensures deadline == now + ttl
    {
      marked := marked + {key};
      deadline := now + ttl;
    }

    /** `generate_embeddings`: pointwise. */
    method GenerateEmbeddings(texts: seq<string>) returns (embeddings: seq<E>)
      ensures |embeddings| == |texts| && forall i :: 0 <= i < |texts| ==> embeddings[i] == embed(texts[i])
    {
      embeddings := [];
      for i := 0 to |texts|
        invariant |embeddings| == i && forall j :: 0 <= j < i ==> embeddings[j] == embed(texts[j])
      {
        embeddings := embeddings + [embed(texts[i])];
      }
    }

    /** Marks the keys of the rows that are new; false when a row raised. */
    method Collect(rows: seq<Row>, now: nat) returns (items: seq<Item>, ok: bool)
      modifies this`marked, this`deadline
      ensures Pass(marked, items, !ok) == Sanitize(rows, old(marked))
      ensures deadline == DeadlineAfter(old(marked), marked, old(deadline), now, ttl)
    {
      items, ok := [], true;
      var i := 0;
      while i < |rows|
        invariant 0 <= i <= |rows|
        invariant Pass(marked, items, false) == Sanitize(rows[..i], old(marked))
        invariant old(marked) <= marked
        invariant deadline == DeadlineAfter(old(marked), marked, old(deadline), now, ttl)
      {
        assert rows[..i + 1][..i] == rows[..i];
        match rows[i] {
          case Malformed =>
            SanitizeStops(rows, i + 1, old(marked));
            return items, false;
          case Good(key, text) =>
            var seen := IsDuplicate(key);
            if !seen {
              AddKey(key, now);
              items := items + [Item(key, text)];
            }
          case Unserializable(key) =>
            var seen := IsDuplicate(key);
            if !seen {
              AddKey(key, now);
              SanitizeStops(rows, i + 1, old(marked));
              return items, false;
            }
        }
        i := i + 1;
      }
      assert rows[..i] == rows;
    }

    /** Embeds items i..j in one call and pairs each with its own vector. */
    method EmbedChunk(items: seq<Item>, i: nat, j: nat) returns (objects: seq<Stored<E>>)
      requires i <= j <= |items|
      ensures objects == Rows(items[i..j], embed)
    {
      var slice := items[i..j];
      var embeddings := GenerateEmbeddings(Texts(slice));
      objects := [];
      for k := 0 to |slice|
        invariant |objects| == k
        invariant forall m :: 0 <= m < k ==> objects[m] == Stored(slice[m].key, slice[m].text, embed(slice[m].text))
      {
        objects := objects + [Stored(slice[k].key, slice[k].text, embeddings[k])];
      }
    }

    /** Embeds chunk by chunk; None when a chunk raised. */
    method EmbedAll(items: seq<Item>, chunk: nat, failing: Option<nat>) returns (objects: Option<seq<Stored<E>>>)
      requires chunk > 0
      ensures objects == if failing.Some? && failing.value < Chunks(|items|, chunk) then None
                         else Some(Rows(items, embed))
    {
      var done: seq<Stored<E>> := [];
      var i, c := 0, 0;
      while i < |items|
        invariant 0 <= i <= |items| && i == Min(c * chunk, |items|)
        invariant failing.Some? ==> c <= failing.value
        invariant done == Rows(items[..i], embed)
        decreases |items| - i
      {
        ChunkIndex(|items|, chunk, c);
        if failing == Some(c) {
          return None;
        }
        var j := Min(i + chunk, |items|);
        var objects := EmbedChunk(items, i, j);
        RowsConcat(items, i, j, embed);
        done := done + objects;
        NextChunk(c, chunk);
        i, c := j, c + 1;
      }
      ChunkCount(|items|, chunk, c);
      assert items[..i] == items;
      objects := Some(done);
    }

    method Publish(items: seq<Item>, failing: Option<nat>) returns (ok: bool)
      modifies this`published, this`contents
      ensures var sent := SentAfter(items, CallsMade(|items|, failing));
              published == old(published) + sent.keys && contents == old(contents) + sent.contents
      ensures ok <==> CallsMade(|items|, failing) == 3 * |items|
    {
      for i := 0 to |items|
        invariant failing.Some? ==> 3 * i <= failing.value
        invariant published == old(published) + Keys(items[..i])
        invariant contents == old(contents) + Texts(items[..i])
      {
        KeysAppend(items, i);
        SentUntil(items, i, failing);
        ok := PublishItem(items[i], 3 * i, failing);
        if !ok {
          return;
        }
      }
      SentAll(items);
      assert items[..|items|] == items;
      ok := true;
    }

    /** The calls for one item, the first of them number `call`. */
    method PublishItem(item: Item, call: nat, failing: Option<nat>) returns (ok: bool)
      modifies this`published, this`contents
      ensures published == old(published) + if failing == Some(call) then [] else [item.key]
      ensures contents == old(contents) + if failing == Some(call) || failing == Some(call + 1) then [] else [item.text]
      ensures ok <==> failing != Some(call) && failing != Some(call + 1) && failing != Some(call + 2)
    {
      if failing == Some(call) {
        return false;
      }
      published := published + [item.key];
      if failing == Some(call + 1) {
        return false;
      }
      contents := contents + [item.text];
      ok := failing != Some(call + 2);
    }

    /**
     One run, on what is left of the seen keys when it starts; its effect is `Ingest`, in which the chunk size
     matters only for where a chunk can fail.
     */
    method IngestFromAdapter(rows: seq<Row>, expired: set<string>, f: Faults, chunk: nat, now: nat)
      returns (ok: bool)
      requires chunk > 0
      modifies this
      ensures var st := Alive(old(View()), old(deadline), now);
              && View() == Ingest(st, rows, expired, f, embed, chunk)
              && deadline == DeadlineAfter(st.marked, marked, old(deadline), now, ttl)
              && (ok <==> Completes(st.marked, rows, f, chunk))
    {
      Expire(now);
      if f.purge {
        return false;
      }
      PurgeOldSignals(expired);
      if f.fetch {
        return false;
      }
      var items, collected := Collect(rows, now);
      if !collected {
        return false;
      }
      var objects := EmbedAll(items, chunk, f.chunk);
      if objects.None? {
        return false;
      }
      if f.commit {
        return false;
      }
      committed, table := committed + objects.value, table + objects.value;
      ok := Publish(items, f.publishCall);
    }
  }

  lemma {:induction false} SanitizeStops(rows: seq<Row>, i: nat, marked: set<string>)
    requires i <= |rows| && Sanitize(rows[..i], marked).raised
    ensures Sanitize(rows, marked) == Sanitize(rows[..i], marked)
    decreases |rows|
  {
    if i < |rows| {
      assert rows[..|rows| - 1][..i] == rows[..i];
      SanitizeStops(rows[..|rows| - 1], i, marked);
    } else {
      assert rows[..i] == rows;
    }
  }

  lemma RowsConcat<E>(items: seq<Item>, i: nat, j: nat, embed: string -> E)
    requires i <= j <= |items|
    ensures Rows(items[..j], embed) == Rows(items[..i], embed) + Rows(items[i..j], embed)
  {
  }

  lemma NextChunk(c: nat, chunk: nat)
    ensures (c + 1) * chunk == c * chunk + chunk
  {
  }

  lemma KeysAppend(items: seq<Item>, i: nat)
    requires i < |items|
    ensures Keys(items[..i + 1]) == Keys(items[..i]) + [items[i].key]
    ensures Texts(items[..i + 1]) == Texts(items[..i]) + [items[i].text]
  {
  }

  /** What is out when one of the calls for item i fails. */
  lemma SentUntil(items: seq<Item>, i: nat, failing: Option<nat>)
    requires i < |items|
    ensures failing.Some? && 3 * i <= failing.value < 3 * i + 3 ==>
              var n := CallsMade(|items|, failing);
              && n < 3 * |items|
              && SentAfter(items, n).keys == Keys(items[..i]) + (if failing == Some(3 * i) then [] else [items[i].key])
              && SentAfter(items, n).contents ==
                 Texts(items[..i])
                 + (if failing == Some(3 * i) || failing == Some(3 * i + 1) then [] else [items[i].text])
  {
    Thirds(i);
    KeysAppend(items, i);
  }

  lemma SentAll(items: seq<Item>)
    ensures SentAfter(items, 3 * |items|) == Sent(Keys(items), Texts(items))
  {
    assert items[..|items|] == items;
  }

  lemma Thirds(i: nat)
    ensures (3 * i + 1) / 3 == (3 * i + 2) / 3 == i
    ensures (3 * i + 3) / 3 == (3 * i + 4) / 3 == i + 1
  {
  }

  lemma ChunkIndex(n: nat, chunk: nat, c: nat)
    requires chunk > 0 && c * chunk < n
    ensures c < Chunks(n, chunk)
  {
    assert n + chunk - 1 >= (c + 1) * chunk;
    QuotientAtLeast(n + chunk - 1, chunk, c + 1);
  }

  lemma ChunkCount(n: nat, chunk: nat, c: nat)
    requires chunk > 0 && c * chunk >= n
    ensures Chunks(n, chunk) <= c
  {
    assert n + chunk - 1 < (c + 1) * chunk;
    QuotientBelow(n + chunk - 1, chunk, c + 1);
  }

  lemma QuotientAtLeast(a: nat, b: nat, q: nat)
    requires b > 0 && a >= q * b
    ensures a / b >= q
  {
    MulCancel(q, a / b + 1, b);
  }

  lemma MulCancel(x: int, y: int, b: int)
    requires b > 0 && x * b < y * b
    ensures x < y
  {
    assert (y - x) * b == y * b - x * b;
  }

  lemma QuotientBelow(a: nat, b: nat, q: nat)
    requires b > 0 && a < q * b
    ensures a / b < q
  {
    MulCancel(a / b, q, b);
  }
}
