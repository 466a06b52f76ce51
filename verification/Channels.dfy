/** Channel slots and the descriptors that name them.

    A descriptor is a slot index and the slot's sequence number at the time the channel was
    put there; the number tells a later occupant of the slot from the one meant. */
module Channels {

  /** One more than the largest `size_t`. */
  type WordLimit = w: nat | w >= 2 witness 2
  const SIZE_LIMIT: WordLimit

  datatype Option<T> = None | Some(value: T)

  type Channel = nat

  datatype Holder = Holder(sequence: nat, ch: Option<Channel>, reserved: bool)

  const EMPTY := Holder(0, None, false)

  function Incremented(n: nat): nat {
    if n + 1 < SIZE_LIMIT then n + 1 else 0
  }

  datatype Descriptor = Descriptor(index: nat, sequence: nat)

  const DEFAULT := Descriptor(0, 0)

  /** The check every use of a descriptor begins with. */
  function Resolve(slots: seq<Holder>, d: Descriptor): Option<Channel> {
    if d.index < |slots| && slots[d.index].ch.Some? && slots[d.index].sequence == d.sequence
    then slots[d.index].ch else None
  }

  // ---------------------------------------------------------------- runs

  datatype Op = Reserve(i: nat) | Occupy(i: nat, ch: Channel) | Vacate(i: nat) | Grow(n: nat)

  /** `set` on an occupied slot and `clean` on an empty one are fatal. */
  predicate Legal(slots: seq<Holder>, op: Op) {
    match op
    case Reserve(i) => i < |slots|
    case Occupy(i, _) => i < |slots| && slots[i].ch.None?
    case Vacate(i) => i < |slots| && slots[i].ch.Some?
    case Grow(n) => n >= |slots|
  }

  function Do(slots: seq<Holder>, op: Op): (r: seq<Holder>)
    requires Legal(slots, op)
    ensures |r| >= |slots|
  {
    match op
    case Reserve(i) => slots[i := slots[i].(reserved := true)]
    case Occupy(i, ch) => slots[i := slots[i].(ch := Some(ch), sequence := Incremented(slots[i].sequence))]
    case Vacate(i) => slots[i := slots[i].(ch := None, reserved := false)]
    case Grow(n) => slots + seq(n - |slots|, _ => EMPTY)
  }

  predicate LegalRun(slots: seq<Holder>, ops: seq<Op>)
    decreases |ops|
  {
    ops != [] ==> Legal(slots, ops[0]) && LegalRun(Do(slots, ops[0]), ops[1..])
  }

  function Run(slots: seq<Holder>, ops: seq<Op>): (r: seq<Holder>)
    requires LegalRun(slots, ops)
    ensures |r| >= |slots|
    decreases |ops|
  {
    if ops == [] then slots else Run(Do(slots, ops[0]), ops[1..])
  }

  /** How often slot `i` is occupied in a run. */
  function Occupations(ops: seq<Op>, i: nat): nat {
    if ops == [] then 0
    else Occupations(ops[1..], i) + if ops[0].Occupy? && ops[0].i == i then 1 else 0
  }

  predicate Vacated(ops: seq<Op>, i: nat) {
    ops != [] && (ops[0] == Vacate(i) || Vacated(ops[1..], i))
  }

  /** `n` increments of a wrapping counter. */
  function Advanced(s: nat, n: nat): nat
    decreases n
  {
    if n == 0 then s else Advanced(Incremented(s), n - 1)
  }

  /** `n` modulo the word size. */
  function Modulo(n: nat): (r: nat)
    ensures r < SIZE_LIMIT && (n < SIZE_LIMIT ==> r == n)
  {
    if n < SIZE_LIMIT then n else Modulo(n - SIZE_LIMIT)
  }

  lemma {:induction false} ModuloNext(n: nat)
    ensures Modulo(n + 1) == Incremented(Modulo(n))
  {
    if n >= SIZE_LIMIT { ModuloNext(n - SIZE_LIMIT); }
  }

  lemma {:induction false} AdvancedIsModular(s: nat, n: nat)
    requires s < SIZE_LIMIT
    ensures Advanced(s, n) == if s + Modulo(n) < SIZE_LIMIT then s + Modulo(n) else s + Modulo(n) - SIZE_LIMIT
    decreases n
  {
    if n > 0 {
      AdvancedIsModular(Incremented(s), n - 1);
      ModuloNext(n - 1);
    }
  }

  /** The sequence number counts the occupations, modulo the word size. */
  lemma {:induction false} SequenceCounts(slots: seq<Holder>, ops: seq<Op>, i: nat)
    requires LegalRun(slots, ops) && i < |slots|
    ensures Run(slots, ops)[i].sequence == Advanced(slots[i].sequence, Occupations(ops, i))
    decreases |ops|
  {
    if ops != [] {
      SequenceCounts(Do(slots, ops[0]), ops[1..], i);
    }
  }

  /** An occupied slot keeps its channel until it is vacated, and cannot be occupied before. */
  lemma {:induction false} StaysUntilVacated(slots: seq<Holder>, ops: seq<Op>, i: nat)
    requires LegalRun(slots, ops) && i < |slots| && slots[i].ch.Some? && !Vacated(ops, i)
    ensures Run(slots, ops)[i].ch == slots[i].ch && Run(slots, ops)[i].sequence == slots[i].sequence
    ensures Occupations(ops, i) == 0
    decreases |ops|
  {
    if ops != [] {
      StaysUntilVacated(Do(slots, ops[0]), ops[1..], i);
    }
  }

  /** Once vacated, a slot that is occupied again has been so by a later `set`. */
  lemma {:induction false} OccupiedAgain(slots: seq<Holder>, ops: seq<Op>, i: nat)
    requires LegalRun(slots, ops) && i < |slots| && Run(slots, ops)[i].ch.Some?
    requires slots[i].ch.None? || Vacated(ops, i)
    ensures Occupations(ops, i) > 0
    decreases |ops|
  {
    if ops != [] {
      var next := Do(slots, ops[0]);
      if !(ops[0].Occupy? && ops[0].i == i) {
        OccupiedAgain(next, ops[1..], i);
      }
    }
  }

  /** `op` was done, and slot `i` has not been vacated since. */
  ghost predicate Since(ops: seq<Op>, i: nat, op: Op) {
    exists k :: 0 <= k < |ops| && ops[k] == op && !Vacated(ops[k + 1..], i)
  }

  lemma {:induction false} SinceNext(ops: seq<Op>, i: nat, op: Op)
    requires ops != []
    ensures Since(ops, i, op) <==> (ops[0] == op && !Vacated(ops[1..], i)) || Since(ops[1..], i, op)
  {
    var rest := ops[1..];
    if Since(rest, i, op) {
      var k :| 0 <= k < |rest| && rest[k] == op && !Vacated(rest[k + 1..], i);
      assert ops[k + 1] == op && ops[k + 2..] == rest[k + 1..];
    }
    if Since(ops, i, op) && !(ops[0] == op && !Vacated(rest, i)) {
      var k :| 0 <= k < |ops| && ops[k] == op && !Vacated(ops[k + 1..], i);
      assert rest[k - 1] == op && rest[k..] == ops[k + 1..];
    }
  }

  lemma {:induction false} NothingSince(i: nat, op: Op)
    ensures !Since([], i, op)
  {
  }

  /** After any run, a slot is reserved exactly when it was reserved, in the run or before, and
      has not been cleaned since.  Filling it changes nothing about that. */
  lemma {:induction false} ReservedExactlyWhen(slots: seq<Holder>, ops: seq<Op>, i: nat)
    requires LegalRun(slots, ops) && i < |Run(slots, ops)|
    ensures Run(slots, ops)[i].reserved
            <==> Since(ops, i, Reserve(i)) || (i < |slots| && slots[i].reserved && !Vacated(ops, i))
    decreases |ops|
  {
    hide Since;
    if ops == [] {
      NothingSince(i, Reserve(i));
    } else {
      SinceNext(ops, i, Reserve(i));
      ReservedExactlyWhen(Do(slots, ops[0]), ops[1..], i);
    }
  }

  /** And it holds a channel exactly when that channel was put there and the slot has not been
      cleaned since. */
  lemma {:induction false} HoldsExactlyWhen(slots: seq<Holder>, ops: seq<Op>, i: nat, ch: Channel)
    requires LegalRun(slots, ops) && i < |Run(slots, ops)|
    ensures Run(slots, ops)[i].ch == Some(ch)
            <==> Since(ops, i, Occupy(i, ch)) || (i < |slots| && slots[i].ch == Some(ch) && !Vacated(ops, i))
    decreases |ops|
  {
    hide Since;
    if ops == [] {
      NothingSince(i, Occupy(i, ch));
    } else {
      SinceNext(ops, i, Occupy(i, ch));
      HoldsExactlyWhen(Do(slots, ops[0]), ops[1..], i, ch);
    }
  }

  predicate Unused(h: Holder) {
    !h.reserved && h.ch.None?
  }

  /** A slot can be found again exactly when every reservation and every channel it had, in the
      run or before, has been cleaned away. */
  lemma {:induction false} UnusedExactlyWhen(slots: seq<Holder>, ops: seq<Op>, i: nat)
    requires LegalRun(slots, ops) && i < |Run(slots, ops)|
    ensures Unused(Run(slots, ops)[i])
            <==> && !Since(ops, i, Reserve(i)) && (forall ch :: !Since(ops, i, Occupy(i, ch)))
                 && (i < |slots| ==> Unused(slots[i]) || Vacated(ops, i))
  {
    hide Since, Vacated, Run;
    ReservedExactlyWhen(slots, ops, i);
    forall ch: Channel
      ensures Run(slots, ops)[i].ch == Some(ch)
              <==> Since(ops, i, Occupy(i, ch)) || (i < |slots| && slots[i].ch == Some(ch) && !Vacated(ops, i))
    {
      HoldsExactlyWhen(slots, ops, i, ch);
    }
  }

  lemma {:induction false} VacatedMeans(ops: seq<Op>, i: nat)
    ensures Vacated(ops, i) <==> Vacate(i) in ops
  {
    if ops != [] { VacatedMeans(ops[1..], i); }
  }

  /** In particular, right after its `clean`. */
  lemma {:induction false} CleanedIsUnused(slots: seq<Holder>, ops: seq<Op>, i: nat)
    requires LegalRun(slots, ops) && i < |Run(slots, ops)|
    requires ops != [] && ops[|ops| - 1] == Vacate(i)
    ensures Unused(Run(slots, ops)[i])
  {
    hide Run, LegalRun, Vacated, Unused;
    UnusedExactlyWhen(slots, ops, i);
    VacatedMeans(ops, i);
    forall k | 0 <= k < |ops| && ops[k] != Vacate(i) ensures Vacated(ops[k + 1..], i) {
      VacatedMeans(ops[k + 1..], i);
      assert ops[k + 1..][|ops| - k - 2] == Vacate(i);
    }
  }

  ghost predicate Sane(slots: seq<Holder>) {
    forall i :: 0 <= i < |slots| ==> slots[i].sequence < SIZE_LIMIT
  }

  /** A descriptor made when slot `i` was occupied names that channel until the slot is
      vacated; after that it names something exactly when the slot is occupied again and the
      number of occupations since is a multiple of the word size. */
  lemma {:induction false} DescriptorLifetime(slots: seq<Holder>, i: nat, ch: Channel, ops: seq<Op>)
    requires Sane(slots) && Legal(slots, Occupy(i, ch)) && LegalRun(Do(slots, Occupy(i, ch)), ops)
    ensures var made := Do(slots, Occupy(i, ch));
            var d := Descriptor(i, made[i].sequence);
            var end := Run(made, ops);
            && (!Vacated(ops, i) ==> Resolve(end, d) == Some(ch))
            && (Vacated(ops, i) ==>
                  (Resolve(end, d).Some? <==> end[i].ch.Some? && Modulo(Occupations(ops, i)) == 0))
            && (Vacated(ops, i) && Occupations(ops, i) < SIZE_LIMIT ==> Resolve(end, d).None?)
  {
    var made := Do(slots, Occupy(i, ch));
    var end := Run(made, ops);
    var s, n := made[i].sequence, Occupations(ops, i);
    if !Vacated(ops, i) {
      StaysUntilVacated(made, ops, i);
    } else {
      SequenceCounts(made, ops, i);
      AdvancedIsModular(s, n);
      if end[i].ch.Some? {
        OccupiedAgain(made, ops, i);
      }
    }
  }

  /** The default descriptor names nothing, unless the counter of slot 0 has wrapped around. */
  lemma {:induction false} DefaultNamesNothing(ops: seq<Op>)
    requires LegalRun([], ops)
    ensures Resolve(Run([], ops), DEFAULT).Some? <==>
              var end := Run([], ops);
              |end| > 0 && end[0].ch.Some? && Modulo(Occupations(ops, 0)) == 0
    ensures Occupations(ops, 0) < SIZE_LIMIT ==> Resolve(Run([], ops), DEFAULT).None?
  {
    FromNothing([], ops);
    var n := Occupations(ops, 0);
    AdvancedIsModular(0, n);
  }

  /** Slot 0 of a run from the empty table starts with an empty holder. */
  lemma {:induction false} FromNothing(slots: seq<Holder>, ops: seq<Op>)
    requires slots == [] && LegalRun(slots, ops)
    ensures var end := Run(slots, ops);
            |end| > 0 ==> end[0].sequence == Advanced(0, Occupations(ops, 0))
                          && (end[0].ch.Some? ==> Occupations(ops, 0) > 0)
    decreases |ops|
  {
    if ops != [] {
      var next := Do(slots, ops[0]);
      if next == [] {
        FromNothing(next, ops[1..]);
      } else {
        SequenceCounts(next, ops[1..], 0);
        if Run(next, ops[1..])[0].ch.Some? { OccupiedAgain(next, ops[1..], 0); }
      }
    }
  }

  lemma {:induction false} Quiet(ops: seq<Op>)
    requires forall k :: 0 <= k < |ops| ==> ops[k].Reserve? || ops[k].Grow?
    ensures forall i :: Occupations(ops, i) == 0 && !Vacated(ops, i)
  {
    if ops != [] {
      Quiet(ops[1..]);
    }
  }

  // ---------------------------------------------------------------- the holder

  class ChannelHolder {
    var sequenceNumber: nat
    var ch: Option<Channel>
    var reserved: bool

    ghost function View(): Holder
      reads this
    {
      Holder(sequenceNumber, ch, reserved)
    }

    method Init()
      modifies this
      ensures View() == EMPTY && sequenceNumber == 0 && ch == None && !reserved
    {
      sequenceNumber := 0;
      ch := None;
      reserved := false;
    }

    method Set(c: Channel) returns (newSequenceNumber: nat)
      requires ch.None?
      modifies this
      ensures [View()] == Do([old(View())], Occupy(0, c)) && newSequenceNumber == sequenceNumber
      ensures ch == Some(c) && reserved == old(reserved)
    {
      ch := Some(c);
      sequenceNumber := if sequenceNumber + 1 < SIZE_LIMIT then sequenceNumber + 1 else 0;
      newSequenceNumber := sequenceNumber;
    }

    method ReserveSlot()
      modifies this
      ensures [View()] == Do([old(View())], Reserve(0))
      ensures reserved && ch == old(ch) && sequenceNumber == old(sequenceNumber)
    {
      reserved := true;
    }

    method Clean()
      requires ch.Some?
      modifies this
      ensures [View()] == Do([old(View())], Vacate(0))
      ensures !reserved && ch == None && sequenceNumber == old(sequenceNumber)
    {
      ch := None;
      reserved := false;
    }
  }

  // ---------------------------------------------------------------- finding a slot

  /** The first unused slot, reserved; when there is none, the table grows to 10 slots or to
      twice its size and the first new slot is taken, unless memory has run out. */
  method FindUnused(slots: seq<Holder>, reserve: bool, memory: bool)
    returns (found: bool, index: nat, table: seq<Holder>, ghost ops: seq<Op>)
    ensures LegalRun(slots, ops) && table == Run(slots, ops)
    ensures forall i :: Occupations(ops, i) == 0 && !Vacated(ops, i)
    ensures found <==> memory || exists k :: 0 <= k < |slots| && Unused(slots[k])
    ensures !found ==> table == slots
    ensures found ==> index < |table| && table[index].ch.None? && table[index].reserved == reserve
    ensures found ==> forall k :: 0 <= k < index && k < |slots| ==> !Unused(slots[k])
    ensures found ==> if index < |slots| then Unused(slots[index])
                      else index == |slots| && |table| == if |slots| < 10 then 10 else 2 * |slots|
    ensures forall k :: 0 <= k < |slots| && (!found || k != index) ==> table[k] == slots[k]
  {
    ops := [];
    var i := 0;
    while i < |slots|
      invariant 0 <= i <= |slots| && forall k :: 0 <= k < i ==> !Unused(slots[k])
    {
      if Unused(slots[i]) {
        index, found, table := i, true, slots;
        if reserve {
          table := slots[i := slots[i].(reserved := true)];
          ops := [Reserve(i)];
          assert ops[1..] == [];
        }
        Quiet(ops);
        return;
      }
      i := i + 1;
    }
    if !memory {
      Quiet([]);
      return false, 0, slots, [];
    }
    var n := if |slots| < 10 then 10 else 2 * |slots|;
    table := slots + seq(n - |slots|, _ => EMPTY);
    index, found := |slots|, true;
    ops := [Grow(n)];
    assert Do(slots, ops[0]) == table && ops[1..] == [];
    if reserve {
      ghost var grown := table;
      ops := [Grow(n), Reserve(index)];
      table := table[index := table[index].(reserved := true)];
      assert ops[1..] == [Reserve(index)] && ops[1..][1..] == [];
      assert Run(grown, ops[1..]) == table;
    }
    Quiet(ops);
  }
}
