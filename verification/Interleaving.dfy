/** One caller's steps interleaved with what others do at its awaits. */
module Interleaving {
  /** A step since a call began: the caller's own, or somebody else's taken at an await. */
  datatype Move<A> = Mine(action: A) | Theirs(action: A)

  /** Batches of foreign actions, one per await, as one sequence. */
  function Flatten<A>(noise: seq<seq<A>>): seq<A> {
    if noise == [] then [] else noise[0] + Flatten(noise[1..])
  }

  /** The run a call took part in. */
  function Actions<A>(moves: seq<Move<A>>): seq<A> {
    seq(|moves|, i requires 0 <= i < |moves| => moves[i].action)
  }

  /** A batch as moves of others. */
  function Foreigners<A>(batch: seq<A>): seq<Move<A>> {
    seq(|batch|, i requires 0 <= i < |batch| => Theirs(batch[i]))
  }

  /** The actions of others, in order. */
  function Others<A>(moves: seq<Move<A>>): seq<A> {
    if moves == [] then []
    else
      var last := moves[|moves| - 1];
      Others(moves[..|moves| - 1]) + (if last.Theirs? then [last.action] else [])
  }

  /** The caller's own actions, in order. */
  function Own<A>(moves: seq<Move<A>>): seq<A> {
    if moves == [] then []
    else
      var last := moves[|moves| - 1];
      Own(moves[..|moves| - 1]) + (if last.Mine? then [last.action] else [])
  }

  lemma MoveAppended<A>(moves: seq<Move<A>>, m: Move<A>)
    ensures Actions(moves + [m]) == Actions(moves) + [m.action]
    ensures Others(moves + [m]) == Others(moves) + (if m.Theirs? then [m.action] else [])
    ensures Own(moves + [m]) == Own(moves) + (if m.Mine? then [m.action] else [])
  {
    assert (moves + [m])[..|moves|] == moves;
  }

  lemma Associate<A>(a: seq<A>, b: seq<A>, c: seq<A>)
    ensures (a + b) + c == a + (b + c)
  {
  }

  lemma ForeignersSplit<A>(moves: seq<Move<A>>, batch: seq<A>)
    requires |batch| > 0
    ensures var n := |batch| - 1;
            moves + Foreigners(batch) == moves + Foreigners(batch[..n]) + [Theirs(batch[n])]
            && batch[..n] + [batch[n]] == batch
  {
  }

  /** A batch joins the moves as it is, behind what is there. */
  lemma {:induction false} BatchAppended<A>(moves: seq<Move<A>>, batch: seq<A>)
    ensures Actions(moves + Foreigners(batch)) == Actions(moves) + batch
    ensures Others(moves + Foreigners(batch)) == Others(moves) + batch
    ensures Own(moves + Foreigners(batch)) == Own(moves)
    decreases |batch|
  {
    if batch == [] {
      assert moves + Foreigners(batch) == moves;
    } else {
      var n := |batch| - 1;
      BatchAppended(moves, batch[..n]);
      ForeignersSplit(moves, batch);
      MoveAppended(moves + Foreigners(batch[..n]), Theirs(batch[n]));
      Associate(Actions(moves), batch[..n], [batch[n]]);
      Associate(Others(moves), batch[..n], [batch[n]]);
    }
  }

  /** Moving one batch from the interference to come into the moves loses and reorders nothing. */
  lemma BatchWoven<A>(moves: seq<Move<A>>, noise: seq<seq<A>>)
    requires noise != []
    ensures Others(moves + Foreigners(noise[0])) + Flatten(noise[1..]) == Others(moves) + Flatten(noise)
  {
    BatchAppended(moves, noise[0]);
    Associate(Others(moves), noise[0], Flatten(noise[1..]));
  }
}
