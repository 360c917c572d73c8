/**
  The keypad's key queues (KeypadTextIn.c, Keypad.c): a ring that forgets its oldest key when
  it is full, the reader and the waiter that skip partial keystrokes, and key notification.
*/
module KeyQueue {

  const MAX_COUNT: nat := 256
  const CAPACITY: nat := MAX_COUNT - 1

  const SCAN_NULL: nat := 0
  const CHAR_NULL: nat := 0
  const LOWER_A: nat := 0x61
  const LOWER_Z: nat := 0x7A
  const UPPER_A: nat := 0x41
  const UPPER_Z: nat := 0x5A

  datatype InputKey = InputKey(scanCode: nat, unicodeChar: nat)

  datatype KeyData = KeyData(key: InputKey, shiftState: nat, toggleState: nat)

  predicate IsPartial(k: KeyData)
    ensures IsPartial(k) <==> k.key == InputKey(0, 0)
  {
    k.key.scanCode == SCAN_NULL && k.key.unicodeChar == CHAR_NULL
  }

  /** Bit 2 or bit 3 of the shift state: the right or the left control key. */
  predicate ControlPressed(shiftState: nat) { shiftState / 4 % 2 == 1 || shiftState / 8 % 2 == 1 }

  /** Control with a letter gives 1 to 26. */
  function Translated(k: KeyData): (key: InputKey) {
    var c := k.key.unicodeChar;
    if !ControlPressed(k.shiftState) then k.key
    else if LOWER_A <= c <= LOWER_Z then k.key.(unicodeChar := c - LOWER_A + 1)
    else if UPPER_A <= c <= UPPER_Z then k.key.(unicodeChar := c - UPPER_A + 1)
    else k.key
  }

  lemma ControlBits(shiftState: nat)
    ensures ControlPressed(shiftState) <==> shiftState / 4 % 4 != 0
  {
    var q := shiftState / 4;
    assert shiftState / 8 == q / 2;
    assert q % 4 == q % 2 + 2 * (q / 2 % 2);
  }

  /**
    With bit 2 or 3 of the shift state set, the n-th letter of the alphabet, small (0x61 to 0x7A)
    or capital (0x41 to 0x5A), is read as n; any other key is read as it is.
  */
  lemma TranslatedLetters(k: KeyData, n: nat)
    requires 1 <= n <= 26
    ensures var c, control := k.key.unicodeChar, k.shiftState / 4 % 4 != 0;
      && (control && (c == 0x60 + n || c == 0x40 + n) ==> Translated(k) == InputKey(k.key.scanCode, n))
      && (!control || c < 0x41 || 0x5A < c < 0x61 || 0x7A < c ==> Translated(k) == k.key)
  {
    ControlBits(k.shiftState);
    hide ControlPressed;
  }

  // ----- queues as values

  /** The last 255 keys. */
  function Recent(keys: seq<KeyData>): (r: seq<KeyData>) {
    if |keys| <= CAPACITY then keys else keys[|keys| - CAPACITY..]
  }

  /** A queue of up to 255 keys is kept whole; of a longer one the last 255 are kept, in order. */
  lemma RecentKeys(keys: seq<KeyData>)
    ensures |Recent(keys)| == if |keys| < 255 then |keys| else 255
    ensures forall i :: 0 <= i < |Recent(keys)| ==> Recent(keys)[i] == keys[|keys| - |Recent(keys)| + i]
  {
    var r, from := Recent(keys), if |keys| < 255 then 0 else |keys| - 255;
    assert r == keys[from..];
    hide Recent;
  }

  lemma RecentOne(keys: seq<KeyData>, k: KeyData)
    requires |keys| <= CAPACITY
    ensures Recent(keys + [k]) == if |keys| == CAPACITY then keys[1..] + [k] else keys + [k]
  {
  }

  /** The place of key i of a ring. */
  function Slot(head: nat, i: nat): nat { if head + i < MAX_COUNT then head + i else head + i - MAX_COUNT }

  function RingCount(head: nat, tail: nat): int { if head <= tail then tail - head else MAX_COUNT - head + tail }

  /** The keys between head and tail of a ring. */
  function RingKeys(b: seq<KeyData>, head: nat, tail: nat): (keys: seq<KeyData>)
    requires |b| == MAX_COUNT && head < MAX_COUNT && tail < MAX_COUNT
    ensures |keys| == RingCount(head, tail)
  {
    seq(RingCount(head, tail), i requires 0 <= i < RingCount(head, tail) => b[Slot(head, i)])
  }

  lemma RingPop(b: seq<KeyData>, head: nat, tail: nat)
    requires |b| == MAX_COUNT && head < MAX_COUNT && tail < MAX_COUNT && head != tail
    ensures RingKeys(b, head, tail)[0] == b[head]
    ensures RingKeys(b, (head + 1) % MAX_COUNT, tail) == RingKeys(b, head, tail)[1..]
  {
    var next := if head + 1 < MAX_COUNT then head + 1 else 0;
    assert (head + 1) % MAX_COUNT == next;
    assert forall i :: 0 <= i < RingCount(next, tail) ==> Slot(next, i) == Slot(head, i + 1);
  }

  lemma RingAppend(b: seq<KeyData>, head: nat, tail: nat, k: KeyData)
    requires |b| == MAX_COUNT && head < MAX_COUNT && tail < MAX_COUNT && (tail + 1) % MAX_COUNT != head
    ensures RingKeys(b[tail := k], head, (tail + 1) % MAX_COUNT) == RingKeys(b, head, tail) + [k]
  {
    var next := if tail + 1 < MAX_COUNT then tail + 1 else 0;
    assert (tail + 1) % MAX_COUNT == next && RingCount(head, next) == RingCount(head, tail) + 1;
    assert Slot(head, RingCount(head, tail)) == tail;
    assert forall i :: 0 <= i < RingCount(head, tail) ==> Slot(head, i) != tail;
  }

  class Ring {
    const buffer: array<KeyData>
    var head: nat
    var tail: nat

    ghost predicate Valid()
      reads this
    {
      buffer.Length == MAX_COUNT && head < MAX_COUNT && tail < MAX_COUNT
    }

    /** Oldest key first. */
    ghost function Contents(): (keys: seq<KeyData>)
      requires Valid()
      reads this, buffer
      ensures |keys| <= CAPACITY
    {
      RingKeys(buffer[..], head, tail)
    }

    constructor ()
      ensures Valid() && Contents() == [] && fresh(buffer)
    {
      buffer := new KeyData[MAX_COUNT](_ => KeyData(InputKey(0, 0), 0, 0));
      head, tail := 0, 0;
    }

    method IsEmpty() returns (empty: bool)
      requires Valid()
      ensures empty <==> Contents() == []
    {
      empty := head == tail;
    }

    method Front() returns (k: KeyData)
      requires Valid() && Contents() != []
      ensures k == Contents()[0]
    {
      k := buffer[head];
    }

    /** Remove the oldest key. */
    method Pop() returns (ok: bool, k: KeyData)
      requires Valid()
      modifies this`head
      ensures Valid() && ok == (old(Contents()) != [])
      ensures ok ==> k == old(Contents())[0] && Contents() == old(Contents())[1..]
      ensures !ok ==> Contents() == old(Contents())
    {
      if head == tail {
        return false, KeyData(InputKey(0, 0), 0, 0);
      }
      k := buffer[head];
      RingPop(buffer[..], head, tail);
      head := (head + 1) % MAX_COUNT;
      ok := true;
    }

    /** Add a key; the oldest one goes when the ring is full. */
    method Push(k: KeyData)
      requires Valid()
      modifies this, buffer
      ensures Valid() && Contents() == Recent(old(Contents()) + [k])
    {
      RecentOne(Contents(), k);
      RingLength();
      if (tail + 1) % MAX_COUNT == head {
        var _, _ := Pop();
      }
      Append(k);
    }

    lemma RingLength()
      requires Valid()
      ensures |Contents()| == CAPACITY <==> (tail + 1) % MAX_COUNT == head
    {
    }

    method Append(k: KeyData)
      requires Valid() && |Contents()| < CAPACITY
      modifies this`tail, buffer
      ensures Valid() && Contents() == old(Contents()) + [k]
    {
      RingLength();
      RingAppend(buffer[..], head, tail, k);
      ghost var before := buffer[..];
      buffer[tail] := k;
      assert buffer[..] == before[tail := k];
      tail := (tail + 1) % MAX_COUNT;
    }
  }

  // ----- what arrives, and who is told

  /** A pattern matches a key with the same codes; a state of zero in the pattern matches any. */
  predicate Matches(pattern: KeyData, k: KeyData) {
    pattern.key == k.key &&
    (pattern.shiftState != 0 ==> pattern.shiftState == k.shiftState) &&
    (pattern.toggleState != 0 ==> pattern.toggleState == k.toggleState)
  }

  /** Which registered keys are told of a key: those with its codes and, where they name a state, its state. */
  lemma RegisteredKeys(pattern: KeyData, k: KeyData)
    ensures pattern.key != k.key ==> !Matches(pattern, k)
    ensures pattern.shiftState !in {0, k.shiftState} ==> !Matches(pattern, k)
    ensures pattern.toggleState !in {0, k.toggleState} ==> !Matches(pattern, k)
    ensures Matches(k, k) && Matches(KeyData(k.key, 0, 0), k)
    ensures Matches(KeyData(k.key, k.shiftState, 0), k) && Matches(KeyData(k.key, 0, k.toggleState), k)
  {
  }

  predicate Dropped(k: KeyData, partialKeys: bool) { IsPartial(k) && !partialKeys }

  /** The queue after the first n of the keys that the device reports. */
  function Arrived(queue: seq<KeyData>, keys: seq<KeyData>, partialKeys: bool, n: nat): (r: seq<KeyData>)
    requires n <= |keys|
  {
    if n == 0 then queue
    else
      var before := Arrived(queue, keys, partialKeys, n - 1);
      if Dropped(keys[n - 1], partialKeys) then before else Recent(before + [keys[n - 1]])
  }

  /** The first n keys without those that are dropped. */
  function Admitted(keys: seq<KeyData>, partialKeys: bool, n: nat): (r: seq<KeyData>)
    requires n <= |keys|
  {
    if n == 0 then []
    else Admitted(keys, partialKeys, n - 1) + if Dropped(keys[n - 1], partialKeys) then [] else [keys[n - 1]]
  }

  /** Taken one at a time, the keys leave the most recent 255 in the queue. */
  lemma {:induction false} ArrivedIsRecent(queue: seq<KeyData>, keys: seq<KeyData>, partialKeys: bool, n: nat)
    requires n <= |keys| && |queue| <= CAPACITY
    ensures Arrived(queue, keys, partialKeys, n) == Recent(queue + Admitted(keys, partialKeys, n))
  {
    if n == 0 {
      assert queue + [] == queue;
    } else {
      ArrivedIsRecent(queue, keys, partialKeys, n - 1);
      var before, k := queue + Admitted(keys, partialKeys, n - 1), keys[n - 1];
      if Dropped(k, partialKeys) {
        assert Admitted(keys, partialKeys, n) == Admitted(keys, partialKeys, n - 1);
      } else {
        assert before + [k] == queue + Admitted(keys, partialKeys, n);
        RecentAgain(before, k);
      }
    }
  }

  lemma RecentAgain(keys: seq<KeyData>, k: KeyData)
    ensures Recent(Recent(keys) + [k]) == Recent(keys + [k])
  {
  }

  /** How many of the first n patterns match. */
  function MatchCount(patterns: seq<KeyData>, k: KeyData, n: nat): (count: nat)
    requires n <= |patterns|
    ensures count <= n
  {
    if n == 0 then 0 else MatchCount(patterns, k, n - 1) + if Matches(patterns[n - 1], k) then 1 else 0
  }

  /** The queue for notification takes the key once for every pattern that matches. */
  function Noted(queue: seq<KeyData>, patterns: seq<KeyData>, k: KeyData, n: nat): (r: seq<KeyData>)
    requires n <= |patterns|
  {
    if n == 0 then queue
    else
      var before := Noted(queue, patterns, k, n - 1);
      if Matches(patterns[n - 1], k) then Recent(before + [k]) else before
  }

  function AllNoted(queue: seq<KeyData>, patterns: seq<KeyData>, keys: seq<KeyData>, partialKeys: bool, n: nat)
    : (r: seq<KeyData>)
    requires n <= |keys|
  {
    if n == 0 then queue
    else
      var before := AllNoted(queue, patterns, keys, partialKeys, n - 1);
      if Dropped(keys[n - 1], partialKeys) then before else Noted(before, patterns, keys[n - 1], |patterns|)
  }

  /** A call of the function registered with a pattern. */
  datatype Call = Call(pattern: nat, key: KeyData)

  function CallsFor(patterns: seq<KeyData>, k: KeyData, n: nat): (calls: seq<Call>)
    requires n <= |patterns|
  {
    if n == 0 then []
    else CallsFor(patterns, k, n - 1) + if Matches(patterns[n - 1], k) then [Call(n - 1, k)] else []
  }

  /** The calls made for the first n keys of the queue for notification. */
  function Calls(patterns: seq<KeyData>, keys: seq<KeyData>, n: nat): (calls: seq<Call>)
    requires n <= |keys|
  {
    if n == 0 then [] else Calls(patterns, keys, n - 1) + CallsFor(patterns, keys[n - 1], |patterns|)
  }

  function CallCount(calls: seq<Call>, pattern: nat): nat {
    if calls == [] then 0
    else CallCount(calls[..|calls| - 1], pattern) + if calls[|calls| - 1].pattern == pattern then 1 else 0
  }

  lemma {:induction false} CallCountSum(a: seq<Call>, b: seq<Call>, pattern: nat)
    ensures CallCount(a + b, pattern) == CallCount(a, pattern) + CallCount(b, pattern)
    decreases |b|
  {
    if b == [] {
      assert a + b == a;
    } else {
      assert (a + b)[..|a + b| - 1] == a + b[..|b| - 1];
      CallCountSum(a, b[..|b| - 1], pattern);
    }
  }

  lemma {:induction false} CallsForCount(patterns: seq<KeyData>, k: KeyData, n: nat, j: nat)
    requires n <= |patterns| && j < |patterns|
    ensures CallCount(CallsFor(patterns, k, n), j) == if j < n && Matches(patterns[j], k) then 1 else 0
  {
    if n > 0 {
      CallsForCount(patterns, k, n - 1, j);
      var last := if Matches(patterns[n - 1], k) then [Call(n - 1, k)] else [];
      CallCountSum(CallsFor(patterns, k, n - 1), last, j);
      assert last != [] ==> last[..0] == [];
    }
  }

  /** How many of the keys match. */
  function Matching(keys: seq<KeyData>, pattern: KeyData): (count: nat) {
    if keys == [] then 0
    else Matching(keys[..|keys| - 1], pattern) + if Matches(pattern, keys[|keys| - 1]) then 1 else 0
  }

  lemma {:induction false} MatchingSum(a: seq<KeyData>, b: seq<KeyData>, pattern: KeyData)
    ensures Matching(a + b, pattern) == Matching(a, pattern) + Matching(b, pattern)
    decreases |b|
  {
    if b == [] {
      assert a + b == a;
    } else {
      assert (a + b)[..|a + b| - 1] == a + b[..|b| - 1];
      MatchingSum(a, b[..|b| - 1], pattern);
    }
  }

  /** The function of a pattern is called once for every key in the queue that it matches. */
  lemma {:induction false} CallsCount(patterns: seq<KeyData>, keys: seq<KeyData>, n: nat, j: nat)
    requires n <= |keys| && j < |patterns|
    ensures CallCount(Calls(patterns, keys, n), j) == Matching(keys[..n], patterns[j])
  {
    if n > 0 {
      CallsCount(patterns, keys, n - 1, j);
      CallCountSum(Calls(patterns, keys, n - 1), CallsFor(patterns, keys[n - 1], |patterns|), j);
      CallsForCount(patterns, keys[n - 1], |patterns|, j);
      assert keys[..n][..n - 1] == keys[..n - 1];
    }
  }

  /** A key once for every pattern that matches it. */
  function Repeated(patterns: seq<KeyData>, k: KeyData, n: nat): (r: seq<KeyData>)
    requires n <= |patterns|
  {
    seq(MatchCount(patterns, k, n), _ => k)
  }

  /** All copies that the first n keys put into the queue for notification. */
  function Copies(patterns: seq<KeyData>, keys: seq<KeyData>, partialKeys: bool, n: nat): (r: seq<KeyData>)
    requires n <= |keys|
  {
    if n == 0 then []
    else
      var more := if Dropped(keys[n - 1], partialKeys) then [] else Repeated(patterns, keys[n - 1], |patterns|);
      Copies(patterns, keys, partialKeys, n - 1) + more
  }

  lemma RepeatedNext(patterns: seq<KeyData>, k: KeyData, n: nat)
    requires 0 < n <= |patterns|
    ensures Repeated(patterns, k, n) ==
      if Matches(patterns[n - 1], k) then Repeated(patterns, k, n - 1) + [k] else Repeated(patterns, k, n - 1)
  {
  }

  lemma {:induction false} NotedIsRecent(all: seq<KeyData>, patterns: seq<KeyData>, k: KeyData, n: nat)
    requires n <= |patterns|
    ensures Noted(Recent(all), patterns, k, n) == Recent(all + Repeated(patterns, k, n))
  {
    if n == 0 {
      assert all + Repeated(patterns, k, 0) == all;
    } else {
      NotedIsRecent(all, patterns, k, n - 1);
      RepeatedNext(patterns, k, n);
      hide Recent, Matches, Repeated, MatchCount;
      var before := all + Repeated(patterns, k, n - 1);
      if Matches(patterns[n - 1], k) {
        RecentAgain(before, k);
        Associate(all, Repeated(patterns, k, n - 1), [k]);
      }
    }
  }

  /** The queue for notification holds the most recent 255 copies. */
  lemma {:induction false} AllNotedIsRecent(queue: seq<KeyData>, patterns: seq<KeyData>, keys: seq<KeyData>,
                                            partialKeys: bool, n: nat)
    requires n <= |keys| && |queue| <= CAPACITY
    ensures AllNoted(queue, patterns, keys, partialKeys, n) == Recent(queue + Copies(patterns, keys, partialKeys, n))
  {
    if n == 0 {
      assert queue + [] == queue;
    } else {
      hide Recent, Repeated, Noted, Matches, MatchCount;
      AllNotedIsRecent(queue, patterns, keys, partialKeys, n - 1);
      var before, k := Copies(patterns, keys, partialKeys, n - 1), keys[n - 1];
      var more := if Dropped(k, partialKeys) then [] else Repeated(patterns, k, |patterns|);
      Associate(queue, before, more);
      if Dropped(k, partialKeys) {
        assert (queue + before) + [] == queue + before;
      } else {
        NotedIsRecent(queue + before, patterns, k, |patterns|);
      }
    }
  }

  lemma Associate<T>(a: seq<T>, b: seq<T>, c: seq<T>)
    ensures a + (b + c) == (a + b) + c
  {
  }

  /** Key i is queued, and pattern j matches it. */
  predicate Meant(patterns: seq<KeyData>, keys: seq<KeyData>, partialKeys: bool, i: nat, j: nat) {
    i < |keys| && j < |patterns| && !Dropped(keys[i], partialKeys) && Matches(patterns[j], keys[i])
  }

  /** The calls that the first n keys cause for pattern j: as many for each as there are patterns that match it. */
  function Due(patterns: seq<KeyData>, keys: seq<KeyData>, partialKeys: bool, n: nat, j: nat): (count: nat)
    requires n <= |keys|
  {
    if n == 0 then 0
    else
      var meant := Meant(patterns, keys, partialKeys, n - 1, j);
      Due(patterns, keys, partialKeys, n - 1, j) + if meant then MatchCount(patterns, keys[n - 1], |patterns|) else 0
  }

  /** How many of the first n keys are meant for pattern j. */
  function MeantCount(patterns: seq<KeyData>, keys: seq<KeyData>, partialKeys: bool, n: nat, j: nat): (count: nat)
    requires n <= |keys|
  {
    if n == 0 then 0
    else
      var meant := Meant(patterns, keys, partialKeys, n - 1, j);
      MeantCount(patterns, keys, partialKeys, n - 1, j) + if meant then 1 else 0
  }

  lemma {:induction false} RepeatedMatching(patterns: seq<KeyData>, k: KeyData, m: nat, pattern: KeyData)
    ensures Matching(seq(m, _ => k), pattern) == if Matches(pattern, k) then m else 0
  {
    var copies := seq(m, _ => k);
    if m > 0 {
      RepeatedMatching(patterns, k, m - 1, pattern);
      assert copies[..m - 1] == seq(m - 1, _ => k);
    }
  }

  lemma {:induction false} CopiesMatching(patterns: seq<KeyData>, keys: seq<KeyData>, partialKeys: bool, n: nat, j: nat)
    requires n <= |keys| && j < |patterns|
    ensures Matching(Copies(patterns, keys, partialKeys, n), patterns[j]) == Due(patterns, keys, partialKeys, n, j)
  {
    if n > 0 {
      CopiesMatching(patterns, keys, partialKeys, n - 1, j);
      if Dropped(keys[n - 1], partialKeys) {
        assert Copies(patterns, keys, partialKeys, n) == Copies(patterns, keys, partialKeys, n - 1);
      } else {
        var more := Repeated(patterns, keys[n - 1], |patterns|);
        MatchingSum(Copies(patterns, keys, partialKeys, n - 1), more, patterns[j]);
        RepeatedMatching(patterns, keys[n - 1], MatchCount(patterns, keys[n - 1], |patterns|), patterns[j]);
      }
    }
  }

  /** What is forgotten of a queue that grew past 255. */
  function Lost(keys: seq<KeyData>): (r: seq<KeyData>) {
    if |keys| <= CAPACITY then [] else keys[..|keys| - CAPACITY]
  }

  /**
    Whatever keys arrive, the function of pattern j is called once for every pattern that matches a
    key meant for it, and for every such copy that was queued already, except for the copies that
    the queue forgot.
  */
  lemma CalledForEach(queue: seq<KeyData>, patterns: seq<KeyData>, keys: seq<KeyData>, partialKeys: bool, j: nat)
    requires |queue| <= CAPACITY && j < |patterns|
    ensures var queued := AllNoted(queue, patterns, keys, partialKeys, |keys|);
      var lost := Lost(queue + Copies(patterns, keys, partialKeys, |keys|));
      CallCount(Calls(patterns, queued, |queued|), j) + Matching(lost, patterns[j]) ==
        Matching(queue, patterns[j]) + Due(patterns, keys, partialKeys, |keys|, j)
  {
    var copies := Copies(patterns, keys, partialKeys, |keys|);
    var queued := AllNoted(queue, patterns, keys, partialKeys, |keys|);
    AllNotedIsRecent(queue, patterns, keys, partialKeys, |keys|);
    CallsCount(patterns, queued, |queued|, j);
    assert queued[..|queued|] == queued;
    assert Lost(queue + copies) + queued == queue + copies;
    MatchingSum(Lost(queue + copies), queued, patterns[j]);
    MatchingSum(queue, copies, patterns[j]);
    CopiesMatching(patterns, keys, partialKeys, |keys|, j);
  }

  lemma {:induction false} MatchCountPositive(patterns: seq<KeyData>, k: KeyData, n: nat, j: nat)
    requires j < n <= |patterns| && Matches(patterns[j], k)
    ensures MatchCount(patterns, k, n) >= 1
  {
    if j < n - 1 {
      MatchCountPositive(patterns, k, n - 1, j);
    }
  }

  lemma {:induction false} DueExactly(patterns: seq<KeyData>, keys: seq<KeyData>, partialKeys: bool, n: nat, j: nat)
    requires n <= |keys| && j < |patterns|
    ensures MeantCount(patterns, keys, partialKeys, n, j) <= Due(patterns, keys, partialKeys, n, j)
    ensures MeantCount(patterns, keys, partialKeys, n, j) == Due(patterns, keys, partialKeys, n, j) <==>
      forall i :: 0 <= i < n && Meant(patterns, keys, partialKeys, i, j) ==>
        MatchCount(patterns, keys[i], |patterns|) == 1
  {
    if n > 0 {
      DueExactly(patterns, keys, partialKeys, n - 1, j);
      if Meant(patterns, keys, partialKeys, n - 1, j) {
        MatchCountPositive(patterns, keys[n - 1], |patterns|, j);
      }
    }
  }

  /**
    As long as nothing is forgotten, the function of pattern j is called once for each key meant
    for it if and only if no other pattern matches any of these keys.
  */
  lemma CalledOnceEach(patterns: seq<KeyData>, keys: seq<KeyData>, partialKeys: bool, j: nat)
    requires j < |patterns| && |Copies(patterns, keys, partialKeys, |keys|)| <= CAPACITY
    ensures var queued := AllNoted([], patterns, keys, partialKeys, |keys|);
      CallCount(Calls(patterns, queued, |queued|), j) == MeantCount(patterns, keys, partialKeys, |keys|, j) <==>
        forall i :: 0 <= i < |keys| && Meant(patterns, keys, partialKeys, i, j) ==>
          MatchCount(patterns, keys[i], |patterns|) == 1
  {
    hide AllNoted, Calls, CallCount, Copies, Due, MeantCount, Meant, MatchCount;
    CalledForEach([], patterns, keys, partialKeys, j);
    assert [] + Copies(patterns, keys, partialKeys, |keys|) == Copies(patterns, keys, partialKeys, |keys|);
    DueExactly(patterns, keys, partialKeys, |keys|, j);
  }

  // ----- reading and waiting

  datatype Reading = NotReady | DeviceError | Keystroke(key: InputKey)

  /** Drop the partial keystrokes in front. */
  function SkipPartial(queue: seq<KeyData>): (r: seq<KeyData>)
    ensures |r| <= |queue| && (r != [] ==> !IsPartial(r[0]))
  {
    if queue != [] && IsPartial(queue[0]) then SkipPartial(queue[1..]) else queue
  }

  /** The keys of one call of the timer handler, and those of the later ones. */
  function First(batches: seq<seq<KeyData>>): seq<KeyData> { if batches == [] then [] else batches[0] }

  function Rest(batches: seq<seq<KeyData>>): seq<seq<KeyData>> { if batches == [] then [] else batches[1..] }

  /** What is read, and what stays in the queue, while the given keys arrive. */
  function Read(queue: seq<KeyData>, batches: seq<seq<KeyData>>, partialKeys: bool): (r: (Reading, seq<KeyData>))
    decreases |batches|, |queue|
  {
    var now := Arrived(queue, First(batches), partialKeys, |First(batches)|);
    if now == [] then (NotReady, now)
    else if IsPartial(now[0]) then Read(now[1..], Rest(batches), partialKeys)
    else (Keystroke(Translated(now[0])), now[1..])
  }

  lemma SomeKeyLater(queue: seq<KeyData>)
    requires queue != [] && IsPartial(queue[0])
    ensures (exists i :: 0 <= i < |queue[1..]| && !IsPartial(queue[1..][i])) <==>
      exists i :: 0 <= i < |queue| && !IsPartial(queue[i])
  {
    if i :| 0 <= i < |queue| && !IsPartial(queue[i]) {
      assert queue[1..][i - 1] == queue[i];
    }
  }

  /** How many partial keystrokes are in front. */
  function Skipped(queue: seq<KeyData>): (n: nat)
    ensures n <= |queue|
  {
    if queue != [] && IsPartial(queue[0]) then 1 + Skipped(queue[1..]) else 0
  }

  lemma {:induction false} SkipsSkipped(queue: seq<KeyData>)
    ensures SkipPartial(queue) == queue[Skipped(queue)..]
  {
    if queue != [] && IsPartial(queue[0]) {
      SkipsSkipped(queue[1..]);
      assert queue[1..][Skipped(queue[1..])..] == queue[1 + Skipped(queue[1..])..];
    } else {
      assert queue[0..] == queue;
    }
  }

  lemma {:induction false} SkippedArePartial(queue: seq<KeyData>, i: nat)
    requires i < Skipped(queue)
    ensures IsPartial(queue[i])
  {
    if i > 0 {
      SkippedArePartial(queue[1..], i - 1);
    }
  }

  lemma {:induction false} SkipKeepsWhole(queue: seq<KeyData>)
    ensures SkipPartial(queue) != [] <==> exists i :: 0 <= i < |queue| && !IsPartial(queue[i])
  {
    if queue != [] && IsPartial(queue[0]) {
      hide IsPartial;
      SkipKeepsWhole(queue[1..]);
      SomeKeyLater(queue);
    }
  }

  /** The event is signalled exactly when a whole keystroke is queued; only partial ones before it are dropped. */
  lemma SkipFindsKey(queue: seq<KeyData>)
    ensures SkipPartial(queue) != [] <==> exists i :: 0 <= i < |queue| && !IsPartial(queue[i])
    ensures exists n :: SkipsFirst(queue, n) && SkipPartial(queue) == queue[n..]
  {
    SkipKeepsWhole(queue);
    SkipsSkipped(queue);
    forall i | 0 <= i < Skipped(queue)
      ensures IsPartial(queue[i])
    {
      SkippedArePartial(queue, i);
    }
    assert SkipsFirst(queue, Skipped(queue));
  }

  /** The first n keys are partial. */
  ghost predicate SkipsFirst(queue: seq<KeyData>, n: int) {
    0 <= n <= |queue| && forall i :: 0 <= i < n ==> IsPartial(queue[i])
  }

  /** Without new keys, the next read returns the key that was waited for, or there is none. */
  lemma {:induction false} ReadAfterWait(queue: seq<KeyData>, partialKeys: bool)
    ensures var waiting := SkipPartial(queue);
      Read(queue, [], partialKeys) ==
        (if waiting == [] then (NotReady, []) else (Keystroke(Translated(waiting[0])), waiting[1..]))
    ensures Read(SkipPartial(queue), [], partialKeys) == Read(queue, [], partialKeys)
    decreases |queue|
  {
    if queue != [] && IsPartial(queue[0]) {
      ReadAfterWait(queue[1..], partialKeys);
    }
  }

  /** The keys that the first call of the timer handler brings are queued before anything is read. */
  lemma ReadTakesBatch(queue: seq<KeyData>, keys: seq<KeyData>, partialKeys: bool)
    requires |queue| <= CAPACITY
    ensures Read(queue, [keys], partialKeys) ==
      Read(Recent(queue + Admitted(keys, partialKeys, |keys|)), [], partialKeys)
  {
    ArrivedIsRecent(queue, keys, partialKeys, |keys|);
    assert First([keys]) == keys && Rest([keys]) == [];
    hide Arrived, Admitted, Recent;
    var now := Arrived(queue, keys, partialKeys, |keys|);
    assert Arrived(now, [], partialKeys, 0) == now by {
      NothingArrives(now, partialKeys);
    }
  }

  lemma NothingArrives(queue: seq<KeyData>, partialKeys: bool)
    ensures Arrived(queue, [], partialKeys, 0) == queue
  {
  }

  // ----- the driver

  class Keypad {
    const queue: Ring
    const forNotify: Ring
    var patterns: seq<KeyData>
    var partialKeys: bool
    var keypadErr: bool

    ghost predicate Valid()
      reads this, queue, queue.buffer, forNotify, forNotify.buffer
    {
      queue != forNotify && queue.buffer != forNotify.buffer && queue.Valid() && forNotify.Valid()
    }

    constructor (patterns: seq<KeyData>, partialKeys: bool)
      ensures Valid() && queue.Contents() == [] && forNotify.Contents() == []
      ensures this.patterns == patterns && this.partialKeys == partialKeys && !keypadErr
      ensures fresh(queue) && fresh(forNotify) && fresh(queue.buffer) && fresh(forNotify.buffer)
    {
      queue := new Ring();
      forNotify := new Ring();
      this.patterns, this.partialKeys, keypadErr := patterns, partialKeys, false;
    }

    /** A key from the device. */
    method PushKey(k: KeyData)
      requires Valid()
      modifies queue, queue.buffer, forNotify, forNotify.buffer
      ensures Valid()
      ensures queue.Contents() ==
        if k.key == InputKey(0, 0) && !partialKeys then old(queue.Contents()) else Recent(old(queue.Contents()) + [k])
      ensures forNotify.Contents() ==
        if k.key == InputKey(0, 0) && !partialKeys then old(forNotify.Contents())
        else Noted(old(forNotify.Contents()), patterns, k, |patterns|)
    {
      if IsPartial(k) && !partialKeys {
        return;
      }
      NoteKey(k);
      queue.Push(k);
    }

    /** Queue the key for notification, once for every pattern that matches. */
    method NoteKey(k: KeyData)
      requires Valid()
      modifies forNotify, forNotify.buffer
      ensures Valid() && queue.Contents() == old(queue.Contents())
      ensures forNotify.Contents() == Noted(old(forNotify.Contents()), patterns, k, |patterns|)
    {
      hide Recent, Matches, RingKeys;
      for i := 0 to |patterns|
        invariant Valid()
        invariant forNotify.Contents() == Noted(old(forNotify.Contents()), patterns, k, i)
      {
        if Matches(patterns[i], k) {
          forNotify.Push(k);
        }
      }
    }

    /** Take what the device reports, unless the keypad failed. */
    method TimerHandler(keys: seq<KeyData>)
      requires Valid()
      modifies queue, queue.buffer, forNotify, forNotify.buffer
      ensures Valid()
      ensures !keypadErr ==> queue.Contents() == Arrived(old(queue.Contents()), keys, partialKeys, |keys|)
      ensures !keypadErr ==>
        forNotify.Contents() == AllNoted(old(forNotify.Contents()), patterns, keys, partialKeys, |keys|)
      ensures keypadErr ==>
        queue.Contents() == old(queue.Contents()) && forNotify.Contents() == old(forNotify.Contents())
    {
      if keypadErr {
        return;
      }
      for i := 0 to |keys|
        invariant Valid()
        invariant queue.Contents() == Arrived(old(queue.Contents()), keys, partialKeys, i)
        invariant forNotify.Contents() == AllNoted(old(forNotify.Contents()), patterns, keys, partialKeys, i)
      {
        PushKey(keys[i]);
      }
    }

    /** One attempt to read a key, partial ones included. */
    method ReadWorker(keys: seq<KeyData>) returns (err: bool, ok: bool, k: KeyData)
      requires Valid()
      modifies queue, queue.buffer, forNotify, forNotify.buffer
      ensures Valid() && err == keypadErr
      ensures keypadErr ==> queue.Contents() == old(queue.Contents())
      ensures var now := Arrived(old(queue.Contents()), keys, partialKeys, |keys|);
        !keypadErr ==>
          ok == (now != []) &&
          if now == [] then queue.Contents() == [] else k == now[0] && queue.Contents() == now[1..]
    {
      TimerHandler(keys);
      err := keypadErr;
      if err {
        return err, false, KeyData(InputKey(0, 0), 0, 0);
      }
      ok, k := queue.Pop();
    }

    /** The next whole keystroke, with control letters translated. */
    method ReadKeyStroke(batches: seq<seq<KeyData>>) returns (r: Reading)
      requires Valid()
      modifies queue, queue.buffer, forNotify, forNotify.buffer
      ensures Valid()
      ensures keypadErr ==> r == DeviceError && queue.Contents() == old(queue.Contents())
      ensures !keypadErr ==> (r, queue.Contents()) == Read(old(queue.Contents()), batches, partialKeys)
    {
      var later := batches;
      while true
        invariant Valid()
        invariant keypadErr ==> queue.Contents() == old(queue.Contents())
        invariant !keypadErr ==>
          Read(queue.Contents(), later, partialKeys) == Read(old(queue.Contents()), batches, partialKeys)
        decreases |later|, |queue.Contents()|
      {
        var err, ok, k := ReadWorker(First(later));
        if err {
          return DeviceError;
        }
        if !ok {
          return NotReady;
        }
        if k.key.scanCode == SCAN_NULL && k.key.unicodeChar == CHAR_NULL {
          later := Rest(later);
          continue;
        }
        return Keystroke(Translated(k));
      }
    }

    /** Is there a key to wait for?  Partial keystrokes in front are dropped. */
    method WaitForKey(keys: seq<KeyData>) returns (signalled: bool)
      requires Valid()
      modifies queue, queue.buffer, forNotify, forNotify.buffer
      ensures Valid()
      ensures keypadErr ==> !signalled && queue.Contents() == old(queue.Contents())
      ensures var now := Arrived(old(queue.Contents()), keys, partialKeys, |keys|);
        !keypadErr ==> queue.Contents() == SkipPartial(now) && signalled == (SkipPartial(now) != [])
    {
      TimerHandler(keys);
      signalled := false;
      if !keypadErr {
        ghost var now := queue.Contents();
        var empty := queue.IsEmpty();
        while !empty
          invariant Valid() && SkipPartial(queue.Contents()) == SkipPartial(now)
          invariant empty <==> queue.Contents() == []
          decreases |queue.Contents()|, !empty
        {
          var k := queue.Front();
          if k.key.scanCode == SCAN_NULL && k.key.unicodeChar == CHAR_NULL {
            var _, _ := queue.Pop();
            empty := queue.IsEmpty();
            continue;
          }
          signalled := true;
          break;
        }
      }
    }

    /** Call the registered functions for every key queued for notification. */
    method NotifyProcess() returns (calls: seq<Call>)
      requires Valid()
      modifies forNotify
      ensures Valid() && forNotify.Contents() == [] && queue.Contents() == old(queue.Contents())
      ensures calls == Calls(patterns, old(forNotify.Contents()), |old(forNotify.Contents())|)
    {
      calls := [];
      ghost var keys := forNotify.Contents();
      ghost var n := 0;
      while true
        invariant Valid() && n <= |keys| && forNotify.Contents() == keys[n..]
        invariant queue.Contents() == old(queue.Contents())
        invariant calls == Calls(patterns, keys, n)
        decreases |keys| - n
      {
        var ok, k := forNotify.Pop();
        if !ok {
          break;
        }
        assert keys[n..][1..] == keys[n + 1..] && k == keys[n];
        ghost var before := calls;
        for i := 0 to |patterns|
          invariant calls == before + CallsFor(patterns, k, i)
        {
          if Matches(patterns[i], k) {
            calls := calls + [Call(i, k)];
          }
        }
        n := n + 1;
      }
    }

    /** Keys arrive, and then those who registered are told. */
    method NotifyAfter(keys: seq<KeyData>) returns (calls: seq<Call>)
      requires Valid() && !keypadErr
      modifies queue, queue.buffer, forNotify, forNotify.buffer
      ensures Valid() && forNotify.Contents() == []
      ensures queue.Contents() == Recent(old(queue.Contents()) + Admitted(keys, partialKeys, |keys|))
      ensures forall j :: 0 <= j < |patterns| ==>
        var lost := Lost(old(forNotify.Contents()) + Copies(patterns, keys, partialKeys, |keys|));
        CallCount(calls, j) + Matching(lost, patterns[j]) ==
          Matching(old(forNotify.Contents()), patterns[j]) + Due(patterns, keys, partialKeys, |keys|, j)
    {
      ArrivedIsRecent(queue.Contents(), keys, partialKeys, |keys|);
      forall j | 0 <= j < |patterns|
        ensures var queued := AllNoted(forNotify.Contents(), patterns, keys, partialKeys, |keys|);
          var lost := Lost(forNotify.Contents() + Copies(patterns, keys, partialKeys, |keys|));
          CallCount(Calls(patterns, queued, |queued|), j) + Matching(lost, patterns[j]) ==
            Matching(forNotify.Contents(), patterns[j]) + Due(patterns, keys, partialKeys, |keys|, j)
      {
        CalledForEach(forNotify.Contents(), patterns, keys, partialKeys, j);
      }
      TimerHandler(keys);
      calls := NotifyProcess();
    }
  }
}
