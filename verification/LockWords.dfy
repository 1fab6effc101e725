/**
 Pessimistic lock words: a 64-bit word with the reader count in its top byte and a writer version
 below, odd while a writer holds the lock. Every lock operation is a load followed by a separate
 compare-and-swap, and any number of guards on one word interleave freely.
 */
module LockWords {

  // The operations on the word are shifts and masks by constants; they are written here as the
  // division, remainder and (wrapping) product by powers of two that they are.
  const BYTE: nat := 0x100
  const SHORT: nat := 0x1_0000
  const OFFSET: nat := 0x100_0000_0000_0000
  const MAX_READERS: nat := 255

  type Word = w: nat | w < BYTE * OFFSET

  function Readers(word: Word): (r: nat)
    ensures r < BYTE
  {
    word / OFFSET
  }

  // The accessor returns 16 bits although 56 are stored.
  function Version(word: Word): (v: nat)
    ensures v < SHORT
  {
    (word % OFFSET) % SHORT
  }

  function MakeWord(readers: nat, version: nat): (w: Word)
    requires version < OFFSET
  {
    (readers % BYTE) * OFFSET + version
  }

  predicate Odd(word: Word) {
    Version(word) % 2 == 1
  }

  /** Packing: the reader count survives modulo one byte, the version modulo sixteen bits, its parity always. */
  lemma Packs(readers: nat, version: nat)
    requires version <= SHORT
    ensures Readers(MakeWord(readers, version)) == readers % BYTE
    ensures Version(MakeWord(readers, version)) == version % SHORT
    ensures Odd(MakeWord(readers, version)) <==> version % 2 == 1
  {
    assert MakeWord(readers, version) % OFFSET == version;
  }

  // ---------------------------------------------------------------------------------------
  // Guards as a step machine
  // ---------------------------------------------------------------------------------------

  // A guard between its load and its compare-and-swap remembers the word it loaded.
  datatype Guard =
    | Idle
    | ReadTry(seen: Word) | WriteTry(seen: Word)
    | Reading | UpgradeTry(seen: Word) | ReadDrop(seen: Word)
    | Writing | WriteDrop(seen: Word)
    | Moved

  datatype State = State(word: Word, guards: map<nat, Guard>)

  predicate HoldsRead(g: Guard) { g.Reading? || g.UpgradeTry? || g.ReadDrop? }

  predicate HoldsWrite(g: Guard) { g.Writing? || g.WriteDrop? }

  function ReadHolders(s: State): (r: set<nat>) { set g | g in s.guards && HoldsRead(s.guards[g]) }

  function WriteHolders(s: State): (r: set<nat>) { set g | g in s.guards && HoldsWrite(s.guards[g]) }

  function Put(s: State, g: nat, x: Guard): (s': State) { s.(guards := s.guards[g := x]) }

  ghost predicate Create(s: State, s': State, g: nat) { g !in s.guards && s' == Put(s, g, Idle) }

  /** Loads, with the tests made on the loaded word; a failed test leaves the guard as it was. */
  ghost predicate Load(s: State, s': State, g: nat) {
    && g in s.guards
    && var w := s.word;
       match s.guards[g] {
         case Idle =>
           || s' == (if Odd(w) then s else Put(s, g, ReadTry(w)))
           || s' == (if Readers(w) != 0 || Odd(w) then s else Put(s, g, WriteTry(w)))
         case Reading =>
           || s' == (if Readers(w) != 1 || Odd(w) then s else Put(s, g, UpgradeTry(w)))
           || s' == Put(s, g, ReadDrop(w))
         case Writing => s' == Put(s, g, WriteDrop(w))
         case _ => false
       }
  }

  /** The word a guard wants to install, the guard it becomes, and the guard it falls back to. */
  function Wanted(g: Guard): (r: (Word, Guard, Guard))
    requires g.ReadTry? || g.WriteTry? || g.UpgradeTry? || g.ReadDrop? || g.WriteDrop?
  {
    var w := g.seen;
    match g
    case ReadTry(_) => (MakeWord(Readers(w) + 1, Version(w)), Reading, Idle)
    case WriteTry(_) => (MakeWord(Readers(w), Version(w) + 1), Writing, Idle)
    case UpgradeTry(_) => (MakeWord(0, Version(w) + 1), Writing, Reading)
    case ReadDrop(_) => (MakeWord((Readers(w) + BYTE - 1) % BYTE, Version(w)), Moved, Reading)
    case WriteDrop(_) => (MakeWord(Readers(w), Version(w) + 1), Moved, Writing)
  }

  ghost predicate Cas(s: State, s': State, g: nat) {
    && g in s.guards
    && var x := s.guards[g];
       && (x.ReadTry? || x.WriteTry? || x.UpgradeTry? || x.ReadDrop? || x.WriteDrop?)
       && var (word, won, lost) := Wanted(x);
          s' == if s.word == x.seen then Put(s, g, won).(word := word) else Put(s, g, lost)
  }

  ghost predicate Next(s: State, s': State) {
    exists g :: Create(s, s', g) || Load(s, s', g) || Cas(s, s', g)
  }

  ghost predicate Init(s: State) { s == State(0, map[]) }

  // ---------------------------------------------------------------------------------------
  // The invariant
  // ---------------------------------------------------------------------------------------

  ghost predicate TriesOk(s: State, x: Guard) {
    && (x.ReadTry? ==> !Odd(x.seen))
    && (x.WriteTry? ==> !Odd(x.seen) && Readers(x.seen) == 0)
    && (x.UpgradeTry? ==> !Odd(x.seen) && Readers(x.seen) == 1)
    && (x.ReadDrop? ==> !Odd(x.seen) && Readers(x.seen) >= 1)
    && (x.WriteDrop? ==> x.seen == s.word)
  }

  ghost predicate Inv(s: State) {
    && Readers(s.word) == |ReadHolders(s)|
    && (Odd(s.word) <==> WriteHolders(s) != {})
    && (Odd(s.word) ==> ReadHolders(s) == {})
    && (forall a, b :: a in WriteHolders(s) && b in WriteHolders(s) ==> a == b)
    && AllTriesOk(s)
  }

  ghost predicate AllTriesOk(s: State) {
    forall g :: g in s.guards ==> TriesOk(s, s.guards[g])
  }

  lemma TriesFrame(s: State, s': State, g: nat, x: Guard)
    requires AllTriesOk(s) && s'.guards == s.guards[g := x] && s'.word == s.word && TriesOk(s', x)
    ensures AllTriesOk(s')
  {
  }

  /** How the two holder sets move when one guard changes. */
  lemma HoldersMove(s: State, s': State, g: nat, x: Guard)
    requires s'.guards == s.guards[g := x]
    ensures ReadHolders(s') == if HoldsRead(x) then ReadHolders(s) + {g} else ReadHolders(s) - {g}
    ensures WriteHolders(s') == if HoldsWrite(x) then WriteHolders(s) + {g} else WriteHolders(s) - {g}
  {
  }

  lemma SoleMember(r: set<nat>, g: nat)
    requires |r| == 1 && g in r
    ensures r == {g}
  {
    assert |r - {g}| == 0;
  }

  lemma IsHolder(s: State, g: nat)
    requires g in s.guards
    ensures (g in ReadHolders(s) <==> HoldsRead(s.guards[g])) && (g in WriteHolders(s) <==> HoldsWrite(s.guards[g]))
  {
  }

  /** A guard that keeps what it holds, and the word, keeps the invariant. */
  lemma MoveInv(s: State, s': State, g: nat, x: Guard)
    requires Inv(s) && g in s.guards && s' == Put(s, g, x) && TriesOk(s', x)
    requires HoldsRead(x) == HoldsRead(s.guards[g]) && HoldsWrite(x) == HoldsWrite(s.guards[g])
    ensures Inv(s')
  {
    SameHolders(s, s', g, x);
    hide Readers, Odd, ReadHolders, WriteHolders, TriesOk;
    TriesFrame(s, s', g, x);
  }

  lemma SameHolders(s: State, s': State, g: nat, x: Guard)
    requires g in s.guards && s' == Put(s, g, x)
    requires HoldsRead(x) == HoldsRead(s.guards[g]) && HoldsWrite(x) == HoldsWrite(s.guards[g])
    ensures ReadHolders(s') == ReadHolders(s) && WriteHolders(s') == WriteHolders(s)
  {
  }

  lemma ReadingWord(s: State, g: nat)
    requires Inv(s) && g in s.guards && HoldsRead(s.guards[g])
    ensures !Odd(s.word) && Readers(s.word) >= 1
  {
    hide Readers, Odd;
    assert g in ReadHolders(s);
    assert |ReadHolders(s) - {g}| == |ReadHolders(s)| - 1;
  }

  lemma LoadInv(s: State, s': State, g: nat)
    requires Inv(s) && Load(s, s', g)
    ensures Inv(s')
  {
    hide Readers, Odd, Inv;
    if s' != s {
      var x := s'.guards[g];
      if x.ReadDrop? {
        ReadingWord(s, g);
      }
      assert s' == Put(s, g, x) && TriesOk(s', x);
      MoveInv(s, s', g, x);
    }
  }

  lemma FallBackInv(s: State, s': State, g: nat, x: Guard)
    requires Inv(s) && g in s.guards && s' == Put(s, g, x)
    requires || (x == Idle && (s.guards[g].ReadTry? || s.guards[g].WriteTry?))
             || (x == Reading && HoldsRead(s.guards[g]))
    ensures Inv(s')
  {
    hide Readers, Odd, Inv;
    MoveInv(s, s', g, x);
  }

  /** A successful compare-and-swap of a reader. */
  lemma ReadCasInv(s: State, s': State, g: nat)
    requires Inv(s) && Cas(s, s', g) && s.word == s.guards[g].seen && |ReadHolders(s')| <= MAX_READERS
    requires s.guards[g].ReadTry? || s.guards[g].ReadDrop?
    ensures Inv(s')
  {
    ReadCasGuard(s, s', g);
    ReadCasWord(s, s', g);
    hide Cas, Readers, Odd, ReadHolders, WriteHolders, TriesOk;
    IsHolder(s, g);
    HoldersMove(s, s', g, s'.guards[g]);
    NoStaleDrop(s, s', g);
    OldTries(s, s', g);
  }

  lemma ReadCasGuard(s: State, s': State, g: nat)
    requires Inv(s) && Cas(s, s', g) && s.word == s.guards[g].seen && (s.guards[g].ReadTry? || s.guards[g].ReadDrop?)
    ensures s'.guards == s.guards[g := s'.guards[g]] && (s'.guards[g].Reading? || s'.guards[g].Moved?)
    ensures !Odd(s.word) && WriteHolders(s) == {} && TriesOk(s', s'.guards[g])
  {
    hide Readers, Odd, MakeWord, ReadHolders, WriteHolders;
    assert TriesOk(s, s.guards[g]);
  }

  /** Without a writer about to unlock, what a try relies on does not depend on the word. */
  lemma OldTries(s: State, s': State, g: nat)
    requires AllTriesOk(s) && g in s.guards && s'.guards.Keys == s.guards.Keys
    requires forall h :: h in s.guards && h != g ==> s'.guards[h] == s.guards[h]
    requires forall h :: h in s'.guards ==> !s'.guards[h].WriteDrop?
    requires TriesOk(s', s'.guards[g])
    ensures AllTriesOk(s')
  {
    hide Readers, Odd;
    forall h | h in s'.guards ensures TriesOk(s', s'.guards[h]) {
      assert h != g ==> TriesOk(s, s.guards[h]);
    }
  }

  lemma ReadCasWord(s: State, s': State, g: nat)
    requires Readers(s.word) == |ReadHolders(s)| && !Odd(s.word)
    requires Cas(s, s', g) && s.word == s.guards[g].seen && |ReadHolders(s')| <= MAX_READERS
    requires s.guards[g].ReadTry? || s.guards[g].ReadDrop?
    ensures Readers(s'.word) == |ReadHolders(s')| && !Odd(s'.word)
  {
    hide Readers, Version, Odd, MakeWord, ReadHolders, WriteHolders;
    var r, v := Readers(s.word), Version(s.word);
    IsHolder(s, g);
    HoldersMove(s, s', g, s'.guards[g]);
    if s.guards[g].ReadTry? {
      assert |ReadHolders(s')| == r + 1;
      NewWord(s.word, r + 1);
    } else {
      assert |ReadHolders(s')| == r - 1;
      assert (r + BYTE - 1) % BYTE == r - 1;
      NewWord(s.word, r - 1);
    }
  }

  lemma NewWord(w: Word, readers: nat)
    requires readers <= MAX_READERS
    ensures Readers(MakeWord(readers, Version(w))) == readers && (Odd(MakeWord(readers, Version(w))) <==> Odd(w))
  {
    Packs(readers, Version(w));
  }

  lemma NextWord(w: Word, readers: nat)
    requires readers <= MAX_READERS
    ensures Readers(MakeWord(readers, Version(w) + 1)) == readers
            && (Odd(MakeWord(readers, Version(w) + 1)) <==> !Odd(w))
  {
    Packs(readers, Version(w) + 1);
  }

  /** A successful compare-and-swap of a writer. */
  lemma WriteCasInv(s: State, s': State, g: nat)
    requires Inv(s) && Cas(s, s', g) && s.word == s.guards[g].seen
    requires s.guards[g].WriteTry? || s.guards[g].UpgradeTry? || s.guards[g].WriteDrop?
    ensures Inv(s')
  {
    hide Readers, Version, Odd, MakeWord, ReadHolders, WriteHolders;
    var x := s.guards[g];
    assert TriesOk(s, x);
    IsHolder(s, g);
    HoldersMove(s, s', g, s'.guards[g]);
    if x.UpgradeTry? {
      SoleMember(ReadHolders(s), g);
    }
    assert ReadHolders(s') == {};
    NextWord(s.word, 0);
    NoStaleDrop(s, s', g);
  }

  lemma NoStaleDrop(s: State, s': State, g: nat)
    requires Inv(s) && g in s.guards && s'.guards.Keys == s.guards.Keys
    requires forall h :: h in s.guards && h != g ==> s'.guards[h] == s.guards[h]
    requires !s'.guards[g].WriteDrop? && (Odd(s.word) ==> g in WriteHolders(s))
    ensures forall h :: h in s'.guards ==> !s'.guards[h].WriteDrop?
  {
    forall h | h in s'.guards ensures !s'.guards[h].WriteDrop? {
      assert HoldsWrite(s.guards[h]) ==> h in WriteHolders(s);
    }
  }

  lemma CasInv(s: State, s': State, g: nat)
    requires Inv(s) && Cas(s, s', g) && |ReadHolders(s')| <= MAX_READERS
    ensures Inv(s')
  {
    if s.word != s.guards[g].seen {
      assert TriesOk(s, s.guards[g]);
      FallBackInv(s, s', g, Wanted(s.guards[g]).2);
    } else if s.guards[g].ReadTry? || s.guards[g].ReadDrop? {
      ReadCasInv(s, s', g);
    } else {
      WriteCasInv(s, s', g);
    }
  }

  lemma CreateInv(s: State, s': State, g: nat)
    requires Inv(s) && Create(s, s', g)
    ensures Inv(s')
  {
    hide Readers, Version;
    HoldersMove(s, s', g, Idle);
    assert ReadHolders(s') == ReadHolders(s) && WriteHolders(s') == WriteHolders(s);
    TriesFrame(s, s', g, Idle);
  }

  lemma NextInv(s: State, s': State)
    requires Inv(s) && Next(s, s') && |ReadHolders(s')| <= MAX_READERS
    ensures Inv(s')
  {
    var g :| Create(s, s', g) || Load(s, s', g) || Cas(s, s', g);
    if Create(s, s', g) {
      CreateInv(s, s', g);
    } else if Load(s, s', g) {
      LoadInv(s, s', g);
    } else {
      CasInv(s, s', g);
    }
  }

  // ---------------------------------------------------------------------------------------
  // All runs
  // ---------------------------------------------------------------------------------------

  /** A run in which never more than 255 guards hold the read lock at once. */
  ghost predicate IsRun(run: seq<State>) {
    && |run| > 0 && Init(run[0])
    && (forall i :: 0 <= i < |run| - 1 ==> Next(run[i], run[i + 1]))
    && (forall i :: 0 <= i < |run| ==> |ReadHolders(run[i])| <= MAX_READERS)
  }

  lemma {:induction false} RunInv(run: seq<State>, i: nat)
    requires IsRun(run) && i < |run|
    ensures Inv(run[i])
  {
    if i == 0 {
      assert ReadHolders(run[0]) == {} && WriteHolders(run[0]) == {};
    } else {
      RunInv(run, i - 1);
      assert Next(run[i - 1], run[i - 1 + 1]);
      NextInv(run[i - 1], run[i]);
    }
  }

  /** The reader field counts the read-locked guards, and a writer is alone. */
  lemma FieldCountsReaders(run: seq<State>, i: nat)
    requires IsRun(run) && i < |run|
    ensures Readers(run[i].word) == |ReadHolders(run[i])|
    ensures Odd(run[i].word) <==> WriteHolders(run[i]) != {}
    ensures forall g :: g in WriteHolders(run[i]) ==> WriteHolders(run[i]) == {g} && ReadHolders(run[i]) == {}
  {
    RunInv(run, i);
    forall g | g in WriteHolders(run[i]) ensures WriteHolders(run[i]) == {g} && ReadHolders(run[i]) == {} {
    }
  }

  /** An upgrade that succeeds was made by the only reader, and nobody wrote. */
  lemma UpgradeBySoleReader(run: seq<State>, i: nat, g: nat)
    requires IsRun(run) && i + 1 < |run| && Cas(run[i], run[i + 1], g)
    requires run[i].guards[g].UpgradeTry? && run[i + 1].guards[g].Writing?
    ensures ReadHolders(run[i]) == {g} && WriteHolders(run[i]) == {}
    ensures WriteHolders(run[i + 1]) == {g} && ReadHolders(run[i + 1]) == {}
  {
    var s := run[i];
    RunInv(run, i);
    RunInv(run, i + 1);
    assert TriesOk(s, s.guards[g]);
    assert g in ReadHolders(s);
    SoleMember(ReadHolders(s), g);
    assert g in WriteHolders(run[i + 1]);
  }

  /** Both unlocks find the word they assert, and a write unlock never loses its compare-and-swap. */
  lemma UnlockAsserts(run: seq<State>, i: nat, g: nat)
    requires IsRun(run) && i < |run| && g in run[i].guards
    ensures run[i].guards[g].Writing? ==> Odd(run[i].word) && Readers(run[i].word) == 0
    ensures run[i].guards[g].Reading? ==> !Odd(run[i].word) && Readers(run[i].word) >= 1
    ensures run[i].guards[g].WriteDrop? ==> run[i].guards[g].seen == run[i].word
  {
    var s := run[i];
    RunInv(run, i);
    assert TriesOk(s, s.guards[g]);
    assert HoldsWrite(s.guards[g]) ==> g in WriteHolders(s);
    assert HoldsRead(s.guards[g]) ==> g in ReadHolders(s);
    assert g in ReadHolders(s) ==> |ReadHolders(s) - {g}| == |ReadHolders(s)| - 1;
  }

  /** The bound is exact: a read lock taken next leaves the field counting the readers iff fewer than 255 held it. */
  lemma ReadLockKeepsCountIff(s: State, s': State, g: nat)
    requires Inv(s) && Cas(s, s', g) && s.guards[g].ReadTry? && s.word == s.guards[g].seen
    ensures Readers(s'.word) == |ReadHolders(s')| <==> |ReadHolders(s)| < MAX_READERS
  {
    var r, v := Readers(s.word), Version(s.word);
    HoldersMove(s, s', g, Reading);
    assert g !in ReadHolders(s);
    assert |ReadHolders(s')| == |ReadHolders(s)| + 1;
    Packs(r + 1, v);
  }

  // ---------------------------------------------------------------------------------------
  // What a guard gets when nobody interferes
  // ---------------------------------------------------------------------------------------

  /** When a guard can become `aim` in one go: a read lock, a write lock, an upgrade, or a release. */
  predicate CanGet(s: State, g: nat, aim: Guard) {
    && g in s.guards
    && match aim
       case Reading => s.guards[g].Idle? && !Odd(s.word) && Readers(s.word) < MAX_READERS
       case Writing =>
         && !Odd(s.word)
         && (if s.guards[g].Reading? then Readers(s.word) == 1 else s.guards[g].Idle? && Readers(s.word) == 0)
       case Moved => s.guards[g].Writing? || (s.guards[g].Reading? && Readers(s.word) > 0)
       case _ => false
  }

  /** The count and the version afterwards: readers are counted, writers make the version odd and even again. */
  predicate Turns(s: State, s': State, g: nat, aim: Guard)
    requires g in s.guards
  {
    var r, v := Readers(s.word), Version(s.word);
    && Readers(s'.word) == (if aim.Reading? then r + 1 else if s.guards[g].Reading? then r - 1 else r)
    && Version(s'.word) == (if aim.Reading? || (aim.Moved? && s.guards[g].Reading?) then v else (v + 1) % SHORT)
  }

  /** The word that a load and a compare-and-swap install when nobody comes between. */
  lemma InstallsWanted(s: State, g: nat, try: Guard) returns (s1: State, s2: State)
    requires g in s.guards && (try.ReadTry? || try.WriteTry? || try.UpgradeTry? || try.ReadDrop? || try.WriteDrop?)
    requires try.seen == s.word && Load(s, Put(s, g, try), g)
    ensures s1 == Put(s, g, try) && Load(s, s1, g) && Cas(s1, s2, g)
    ensures s2.guards == s.guards[g := Wanted(try).1] && s2.word == Wanted(try).0
  {
    hide Readers, Version, MakeWord, Load, Wanted;
    s1 := Put(s, g, try);
    s2 := Put(s1, g, Wanted(try).1).(word := Wanted(try).0);
  }

  lemma WantedTurns(s: State, g: nat, aim: Guard, try: Guard)
    requires CanGet(s, g, aim) && try == TryFor(s, g, aim)
    ensures Wanted(try).1 == aim && Turns(s, State(Wanted(try).0, s.guards), g, aim)
  {
    var r, v := Readers(s.word), Version(s.word);
    hide Readers, Version, MakeWord;
    if aim.Reading? {
      PacksSmall(r + 1, v);
    } else if aim.Writing? {
      PacksSmall(0, v + 1);
    } else if s.guards[g].Writing? {
      PacksSmall(r, v + 1);
    } else {
      OneLess(r);
      PacksSmall(r - 1, v);
    }
  }

  lemma PacksSmall(readers: nat, version: nat)
    requires readers < BYTE && version <= SHORT
    ensures Readers(MakeWord(readers, version)) == readers && Version(MakeWord(readers, version)) == version % SHORT
    ensures version < SHORT ==> version % SHORT == version
  {
    Packs(readers, version);
  }

  lemma OneLess(r: nat)
    requires 0 < r < BYTE
    ensures (r + BYTE - 1) % BYTE == r - 1
  {
  }

  function TryFor(s: State, g: nat, aim: Guard): (try: Guard)
    requires g in s.guards
    ensures (try.ReadTry? || try.WriteTry? || try.UpgradeTry? || try.ReadDrop? || try.WriteDrop?) && try.seen == s.word
  {
    if aim.Reading? then ReadTry(s.word)
    else if aim.Writing? then (if s.guards[g].Idle? then WriteTry(s.word) else UpgradeTry(s.word))
    else if s.guards[g].Reading? then ReadDrop(s.word)
    else WriteDrop(s.word)
  }

  /** A load and a compare-and-swap that nobody comes between do what they are for. */
  lemma GetsAlone(s: State, g: nat, aim: Guard) returns (s1: State, s2: State)
    requires CanGet(s, g, aim)
    ensures Load(s, s1, g) && Cas(s1, s2, g)
    ensures s2.guards == s.guards[g := aim] && Turns(s, s2, g, aim)
  {
    var try := TryFor(s, g, aim);
    WantedTurns(s, g, aim, try);
    assert Load(s, Put(s, g, try), g) by { hide Readers, Version, Wanted, Turns; }
    s1, s2 := InstallsWanted(s, g, try);
    hide Readers, Version, Wanted, Load, Cas;
  }

  /** While a writer holds the lock, or a guard that asks for it is not the only reader, loads change nothing. */
  lemma RefusedAlone(s: State, s': State, g: nat)
    requires g in s.guards && Load(s, s', g) && (s.guards[g].Idle? || s.guards[g].Reading?)
    ensures s.guards[g].Idle? && Odd(s.word) ==> s' == s
    ensures s.guards[g].Idle? && Readers(s.word) != 0 ==> g in s'.guards && !s'.guards[g].WriteTry?
    ensures s.guards[g].Reading? && Readers(s.word) != 1 ==> g in s'.guards && !s'.guards[g].UpgradeTry?
  {
    hide Readers, Version;
  }
}
