/** From a `gpu_index` to a queue name, and from the queue a task came through back to a slot. */
module GpuRouting {
  import opened Options

  // Printing and parsing integers

  function Digit(d: nat): char
    requires d < 10
  {
    '0' + d as char
  }

  function Digits(n: nat): (s: string)
    ensures s != []
  {
    if n < 10 then [Digit(n)] else Digits(n / 10) + [Digit(n % 10)]
  }

  function Printed(n: int): string {
    if n < 0 then ['-'] + Digits(-n) else Digits(n)
  }

  predicate IsDigit(c: char) {
    '0' <= c <= '9'
  }

  predicate IsSpace(c: char) {
    c == ' ' || '\t' <= c <= '\r' || '\U{1C}' <= c <= '\U{1F}'
  }

  /** Decimal digits, single underscores between them. */
  function DigitsValue(s: string): Option<nat>
    decreases |s|
  {
    if s == [] || !IsDigit(s[|s| - 1]) then None
    else
      var d := (s[|s| - 1] - '0') as nat;
      if |s| == 1 then Some(d)
      else
        var n := |s| - 1;
        match DigitsValue(if s[n - 1] == '_' then s[..n - 1] else s[..n])
        case None => None
        case Some(v) => Some(10 * v + d)
  }

  function TrimLeft(s: string): string {
    if s != [] && IsSpace(s[0]) then TrimLeft(s[1..]) else s
  }

  function TrimRight(s: string): string {
    if s != [] && IsSpace(s[|s| - 1]) then TrimRight(s[..|s| - 1]) else s
  }

  /** int(s), for ASCII strings; None stands for the ValueError. */
  function ParseInt(s: string): Option<int> {
    var t := TrimRight(TrimLeft(s));
    if t != [] && (t[0] == '-' || t[0] == '+') then
      match DigitsValue(t[1..])
      case None => None
      case Some(v) => Some(if t[0] == '-' then -(v as int) else v)
    else
      match DigitsValue(t)
      case None => None
      case Some(v) => Some(v)
  }

  /** The last piece of s.split("-"). */
  function LastPiece(s: string): (piece: string)
    ensures forall i :: 0 <= i < |piece| ==> piece[i] != '-'
  {
    if s == [] || s[|s| - 1] == '-' then []
    else LastPiece(s[..|s| - 1]) + [s[|s| - 1]]
  }

  // Routing

  function QueueForGpu(prefix: string, index: int): string {
    prefix + "-" + Printed(index)
  }

  /** The queue a task is routed to: by its `gpu_index`, or as it would be anyway. */
  function Route(prefix: string, gpuIndex: Option<int>, otherwise: string): string {
    if gpuIndex.Some? then QueueForGpu(prefix, gpuIndex.value) else otherwise
  }

  /** The slot a worker locks: from the routing key, else the task's index, else the worker's own. */
  function SlotFor(routingKey: string, gpuIndex: Option<int>, workerIndex: int): Option<int> {
    match ParseInt(LastPiece(routingKey))
    case Some(slot) => Some(slot)
    case None =>
      if gpuIndex.Some? then gpuIndex else if workerIndex >= 0 then Some(workerIndex) else None
  }

  // Round trips

  lemma {:induction false} DigitsAreDigits(n: nat)
    ensures forall i :: 0 <= i < |Digits(n)| ==> IsDigit(Digits(n)[i])
    decreases n
  {
    if n >= 10 { DigitsAreDigits(n / 10); }
  }

  lemma {:induction false} DigitsRoundTrip(n: nat)
    ensures DigitsValue(Digits(n)) == Some(n)
    decreases n
  {
    DigitsAreDigits(n);
    var s := Digits(n);
    assert IsDigit(s[|s| - 1]);
    if n >= 10 {
      DigitsRoundTrip(n / 10);
      assert s[..|s| - 1] == Digits(n / 10);
      assert IsDigit(s[|s| - 2]);
    }
  }

  lemma ParseDigits(s: string)
    requires s != [] && forall i :: 0 <= i < |s| ==> IsDigit(s[i])
    ensures ParseInt(s) == match DigitsValue(s) case None => None case Some(v) => Some(v)
  {
    assert IsDigit(s[0]) && IsDigit(s[|s| - 1]);
  }

  lemma {:induction false} LastPieceAfterDash(front: string, piece: string)
    requires forall i :: 0 <= i < |piece| ==> piece[i] != '-'
    ensures LastPiece(front + ['-'] + piece) == piece
    decreases |piece|
  {
    var s := front + ['-'] + piece;
    if piece != [] {
      var n := |piece| - 1;
      assert s[..|s| - 1] == front + ['-'] + piece[..n];
      LastPieceAfterDash(front, piece[..n]);
    }
  }

  /** What comes back of a printed queue name: the index without its sign, whatever the prefix. */
  lemma QueueParsesToMagnitude(prefix: string, index: int)
    ensures ParseInt(LastPiece(QueueForGpu(prefix, index))) == Some(if index < 0 then -index else index)
  {
    var n := if index < 0 then -index else index;
    var front := if index < 0 then prefix + "-" else prefix;
    DigitsAreDigits(n);
    assert QueueForGpu(prefix, index) == front + ['-'] + Digits(n);
    LastPieceAfterDash(front, Digits(n));
    ParseDigits(Digits(n));
    DigitsRoundTrip(n);
  }

  /** A task routed by its `gpu_index` locks that slot exactly when the index is not negative. */
  lemma RoutedTaskLocksItsSlot(prefix: string, index: int, otherwise: string, workerIndex: int)
    ensures SlotFor(Route(prefix, Some(index), otherwise), Some(index), workerIndex) == Some(index) <==> index >= 0
  {
    QueueParsesToMagnitude(prefix, index);
  }

  // What else a routing key may be

  predicate IsLetter(c: char) {
    'a' <= c <= 'z' || 'A' <= c <= 'Z'
  }

  predicate HasLetter(s: string) {
    exists i :: 0 <= i < |s| && IsLetter(s[i])
  }

  lemma {:induction false} LetterHasNoValue(s: string)
    requires HasLetter(s)
    ensures DigitsValue(s) == None
    decreases |s|
  {
    var n := |s| - 1;
    var i :| 0 <= i < |s| && IsLetter(s[i]);
    if n > 0 && IsDigit(s[n]) {
      var front := if s[n - 1] == '_' then s[..n - 1] else s[..n];
      assert front[i] == s[i];
      LetterHasNoValue(front);
    }
  }

  lemma {:induction false} TrimKeepsLetters(s: string)
    requires HasLetter(s)
    ensures HasLetter(TrimLeft(s)) && HasLetter(TrimRight(s))
    decreases |s|
  {
    var i :| 0 <= i < |s| && IsLetter(s[i]);
    if IsSpace(s[0]) {
      assert s[1..][i - 1] == s[i];
      TrimKeepsLetters(s[1..]);
    }
    if IsSpace(s[|s| - 1]) {
      assert s[..|s| - 1][i] == s[i];
      TrimKeepsLetters(s[..|s| - 1]);
    }
  }

  lemma LetterDoesNotParse(s: string)
    requires HasLetter(s)
    ensures ParseInt(s) == None
  {
    TrimKeepsLetters(s);
    TrimKeepsLetters(TrimLeft(s));
    var t := TrimRight(TrimLeft(s));
    LetterHasNoValue(t);
    var i :| 0 <= i < |t| && IsLetter(t[i]);
    if t[0] == '-' || t[0] == '+' {
      assert t[1..][i - 1] == t[i];
      LetterHasNoValue(t[1..]);
    }
  }

  lemma {:induction false} LastPieceOfWord(s: string)
    requires forall i :: 0 <= i < |s| ==> s[i] != '-'
    ensures LastPiece(s) == s
    decreases |s|
  {
    if s != [] {
      LastPieceOfWord(s[..|s| - 1]);
    }
  }

  /**
   A task that came through a queue named by a word, whatever stands before its last dash, locks the slot of
   its own index, even a negative one; without an index the worker's slot if the worker has one, else any.
   */
  lemma WordKeysDecideNothing(front: string, word: string, gpuIndex: Option<int>, workerIndex: int)
    requires HasLetter(word) && forall i :: 0 <= i < |word| ==> word[i] != '-'
    ensures SlotFor(word, gpuIndex, workerIndex) == SlotFor(front + "-" + word, gpuIndex, workerIndex)
    ensures gpuIndex.Some? ==> SlotFor(word, gpuIndex, workerIndex) == gpuIndex
    ensures gpuIndex.None? && workerIndex >= 0 ==> SlotFor(word, gpuIndex, workerIndex) == Some(workerIndex)
    ensures gpuIndex.None? && workerIndex < 0 ==> SlotFor(word, gpuIndex, workerIndex) == None
  {
    LetterDoesNotParse(word);
    LastPieceOfWord(word);
    LastPieceAfterDash(front, word);
    assert front + "-" + word == front + ['-'] + word;
  }

  /** Blanks, to int(): the space, tab to carriage return, and the four separators. */
  predicate Blanks(s: string) {
    forall i :: 0 <= i < |s| ==> s[i] in " \t\n\U{B}\U{C}\r\U{1C}\U{1D}\U{1E}\U{1F}"
  }

  lemma {:induction false} TrimFront(a: string, t: string)
    requires Blanks(a) && t != [] && !IsSpace(t[0])
    ensures TrimLeft(a + t) == t
    decreases |a|
  {
    if a == [] {
      assert a + t == t;
    } else {
      assert (a + t)[1..] == a[1..] + t;
      TrimFront(a[1..], t);
    }
  }

  lemma {:induction false} TrimBack(t: string, b: string)
    requires Blanks(b) && t != [] && !IsSpace(t[|t| - 1])
    ensures TrimRight(t + b) == t
    decreases |b|
  {
    if b == [] {
      assert t + b == t;
    } else {
      var n := |b| - 1;
      assert (t + b)[..|t| + n] == t + b[..n];
      TrimBack(t, b[..n]);
    }
  }

  lemma TrimBlanks(a: string, t: string, b: string)
    requires Blanks(a) && Blanks(b) && t != [] && !IsSpace(t[0]) && !IsSpace(t[|t| - 1])
    ensures TrimRight(TrimLeft(a + t + b)) == t
  {
    assert a + t + b == a + (t + b);
    TrimFront(a, t + b);
    TrimBack(t, b);
  }

  /** A decimal number parses with blanks around it and a sign before it. */
  lemma SignsAndBlanks(a: string, n: nat, b: string)
    requires Blanks(a) && Blanks(b)
    ensures ParseInt(a + Digits(n) + b) == ParseInt(a + (['+'] + Digits(n)) + b) == Some(n)
    ensures var negative := ParseInt(a + (['-'] + Digits(n)) + b); negative.Some? && negative.value + n == 0
  {
    DigitsAreDigits(n);
    var s := Digits(n);
    assert IsDigit(s[0]) && IsDigit(s[|s| - 1]);
    TrimBlanks(a, s, b);
    TrimBlanks(a, ['+'] + s, b);
    TrimBlanks(a, ['-'] + s, b);
    assert (['+'] + s)[1..] == s && (['-'] + s)[1..] == s;
    DigitsRoundTrip(n);
  }

  /** Different slots have different queues. */
  lemma QueuesAreDistinct(prefix: string, i: nat, j: nat)
    requires QueueForGpu(prefix, i) == QueueForGpu(prefix, j)
    ensures i == j
  {
    QueueParsesToMagnitude(prefix, i);
    QueueParsesToMagnitude(prefix, j);
  }
}
