/**
 The online consistency checker that runs beside the stress tester.

 Every key has a version (completed writes), a count of pending writes, a set of
 values a read may return and a set of values that were definitely overwritten.
 The functions over `KeyState` say what each call does to one key; the class
 keeps one map per field, as the program does, and its methods are proved to
 act on the key they name exactly as those functions say, and on no other key.
 */
module Checker {
  import opened Options

  /** Command line switches of the checker. */
  datatype Flags = Flags(checkCorrectness: bool, checkTtl: bool, ttlBuffer: int)

  /** One recorded Set: the value and the window in which it may expire. */
  datatype StateValue = StateValue(
    value: string, writtenAt: int, maybeExpiredBy: int, definitelyExpiredBy: int, failed: bool)

  datatype KeyState = KeyState(
    values: map<string, StateValue>, overwritten: map<string, StateValue>, version: int, rc: int)

  const FRESH := KeyState(map[], map[], 0, 0)

  datatype Complaint =
    | NoValueFound(unexpired: set<StateValue>)
    | WasOverwritten(value: string)
    | NeverWritten(value: string)
    | AlreadyExpired(value: string)

  datatype Verdict = Skipped | Passed | Reported(complaint: Complaint)
  {
    /** What the caller sees: a skipped check and a passed one look the same. */
    function Error(): Option<Complaint> {
      if Reported? then Some(complaint) else None
    }
  }

  /** Entries are filed under their own value. */
  predicate Filed(m: map<string, StateValue>) {
    forall v <- m :: m[v].value == v
  }

  function BeginWriteOp(s: KeyState): KeyState {
    s.(rc := s.rc + 1)
  }

  /** The test that lets a write become the only allowed value. */
  predicate Unrivalled(s: KeyState, failed: bool, initialVersion: int) {
    !failed && initialVersion == s.version && s.rc == 1
  }

  /** None is the panic on a value already recorded for the key. */
  function CompleteWriteOp(s: KeyState, entry: StateValue, initialVersion: int): Option<KeyState> {
    if entry.value in s.values || entry.value in s.overwritten then None
    else if Unrivalled(s, entry.failed, initialVersion) then
      Some(KeyState(map[entry.value := entry], s.overwritten + s.values, s.version + 1, s.rc - 1))
    else
      Some(KeyState(s.values[entry.value := entry], s.overwritten, s.version + 1, s.rc - 1))
  }

  /** The skip test: a read is judged only if no write was seen near it. */
  predicate Disturbed(s: KeyState, initialVersion: int, writesPending: bool) {
    s.version != initialVersion || writesPending || s.rc != 0
  }

  predicate AllUnexpired(values: map<string, StateValue>, now: int) {
    forall v <- values :: now <= values[v].maybeExpiredBy
  }

  function Judge(flags: Flags, s: KeyState, value: string, wasFound: bool, startTime: int,
                 initialVersion: int, writesPending: bool, now: int): Verdict
  {
    if Disturbed(s, initialVersion, writesPending) then Skipped
    else if !wasFound then
      if s.values != map[] && AllUnexpired(s.values, now)
      then Reported(NoValueFound(set v <- s.values :: s.values[v]))
      else Passed
    else if value !in s.values then
      Reported(if value in s.overwritten then WasOverwritten(value) else NeverWritten(value))
    else if flags.checkTtl && !s.values[value].failed && s.values[value].definitelyExpiredBy < startTime then
      Reported(AlreadyExpired(value))
    else Passed
  }

  /** The loop that moves every current value of a key to its overwritten values. */
  method Retire(overwritten: map<string, StateValue>, current: map<string, StateValue>)
    returns (r: map<string, StateValue>)
    requires Filed(current)
    ensures r == overwritten + current
  {
    r := overwritten;
    var todo := current.Keys;
    MovedNone(overwritten, current);
    while todo != {}
      invariant todo <= current.Keys
      invariant r == Moved(overwritten, current, todo)
      decreases |todo|
    {
      var k :| k in todo;
      var val := current[k];
      MoveOne(overwritten, current, todo, k);
      r := r[val.value := val];
      todo := todo - {k};
    }
    MovedAll(overwritten, current);
  }

  /** What is overwritten once all but the `todo` entries of `m` have been moved. */
  function Moved<K, V>(base: map<K, V>, m: map<K, V>, todo: set<K>): map<K, V> {
    map k | k in base.Keys + (m.Keys - todo) :: if k in m.Keys - todo then m[k] else base[k]
  }

  lemma MovedNone<K, V>(base: map<K, V>, m: map<K, V>)
    ensures Moved(base, m, m.Keys) == base
  {}

  lemma MoveOne<K, V>(base: map<K, V>, m: map<K, V>, todo: set<K>, k: K)
    requires k in todo && todo <= m.Keys
    ensures Moved(base, m, todo)[k := m[k]] == Moved(base, m, todo - {k})
  {}

  lemma MovedAll<K, V>(base: map<K, V>, m: map<K, V>)
    ensures Moved(base, m, {}) == base + m
  {}

  /** The loop that looks for a value that may have expired and lists the others. */
  method ScanExpiry(current: map<string, StateValue>, now: int)
    returns (someValueExpired: bool, notExpired: set<StateValue>)
    ensures someValueExpired <==> current == map[] || !AllUnexpired(current, now)
    ensures notExpired == set v | v in current && now <= current[v].maybeExpiredBy :: current[v]
  {
    someValueExpired := |current| == 0;
    notExpired := {};
    var todo := current.Keys;
    while todo != {}
      invariant todo <= current.Keys
      invariant someValueExpired <==>
                  current == map[] || exists v <- current.Keys - todo :: current[v].maybeExpiredBy < now
      invariant notExpired == set v | v in current.Keys - todo && now <= current[v].maybeExpiredBy :: current[v]
      decreases |todo|
    {
      var v :| v in todo;
      if current[v].maybeExpiredBy < now {
        someValueExpired := true;
      } else {
        notExpired := notExpired + {current[v]};
      }
      todo := todo - {v};
    }
  }

  const TWO64 := 0x1_0000_0000_0000_0000

  class ConsistencyChecker {
    const flags: Flags
    var checksRun: nat
    var values: map<string, map<string, StateValue>>
    var overwritten: map<string, map<string, StateValue>>
    var version: map<string, int>
    var rc: map<string, int>

    /** The slice of the maps that belongs to one key. */
    ghost function View(key: string): KeyState
      reads this
    {
      KeyState(Lookup(values, key, map[]), Lookup(overwritten, key, map[]),
               Lookup(version, key, 0), Lookup(rc, key, 0))
    }

    ghost predicate Valid()
      reads this
    {
      forall key <- values :: Filed(values[key])
    }

    constructor (flags: Flags)
      ensures Valid() && this.flags == flags && checksRun == 0
      ensures forall key :: View(key) == FRESH
    {
      this.flags := flags;
      checksRun := 0;
      values, overwritten, version, rc := map[], map[], map[], map[];
    }

    method BeginWrite(key: string) returns (initialVersion: int)
      requires Valid()
      modifies this
      ensures Valid() && checksRun == old(checksRun)
      ensures !flags.checkCorrectness ==> initialVersion == 0 && forall k :: View(k) == old(View(k))
      ensures flags.checkCorrectness ==>
                && View(key) == BeginWriteOp(old(View(key)))
                && initialVersion == View(key).version
                && forall k :: k != key ==> View(k) == old(View(k))
    {
      if !flags.checkCorrectness { return 0; }
      rc := rc[key := Lookup(rc, key, 0) + 1];
      return Lookup(version, key, 0);
    }

    /** `panicked` is the crash on a duplicate value; nothing has been changed then. */
    method CompleteWrite(key: string, value: string, failed: bool, initialVersion: int,
                         maybeExpiredBy: int, definitelyExpiredBy: int, now: int)
      returns (panicked: bool)
      requires Valid()
      modifies this
      ensures Valid() && checksRun == old(checksRun)
      ensures forall k :: k != key || !flags.checkCorrectness ==> View(k) == old(View(k))
      ensures
        var entry := StateValue(value, now, maybeExpiredBy, definitelyExpiredBy + flags.ttlBuffer, failed);
        var after := CompleteWriteOp(old(View(key)), entry, initialVersion);
        && panicked == (flags.checkCorrectness && after.None?)
        && (flags.checkCorrectness ==> View(key) == if after.Some? then after.value else old(View(key)))
    {
      if !flags.checkCorrectness { return false; }
      var newVal := StateValue(value, now, maybeExpiredBy, definitelyExpiredBy + flags.ttlBuffer, failed);
      var currentVersion := Lookup(version, key, 0);
      if value in Lookup(values, key, map[]) || value in Lookup(overwritten, key, map[]) { return true; }
      if !failed && initialVersion == currentVersion && Lookup(rc, key, 0) == 1 {
        ReplaceValues(key, newVal);
      } else {
        values := values[key := Lookup(values, key, map[])[value := newVal]];
      }
      rc := rc[key := Lookup(rc, key, 0) - 1];
      version := version[key := Lookup(version, key, 0) + 1];
      return false;
    }

    /** The branch in which `entry` becomes the only value a read of the key may return. */
    method ReplaceValues(key: string, entry: StateValue)
      requires Valid()
      modifies this`values, this`overwritten
      ensures Valid()
      ensures View(key) == old(View(key)).(values := map[entry.value := entry],
                                           overwritten := old(View(key).overwritten + View(key).values))
      ensures forall k :: k != key ==> View(k) == old(View(k))
    {
      var moved := Retire(Lookup(overwritten, key, map[]), Lookup(values, key, map[]));
      overwritten := overwritten[key := moved];
      values := values[key := map[entry.value := entry]];
    }

    method BeginRead(key: string) returns (initialVersion: int, writesPending: bool)
      requires Valid()
      ensures !flags.checkCorrectness ==> initialVersion == 0 && !writesPending
      ensures flags.checkCorrectness ==> initialVersion == View(key).version && writesPending == (View(key).rc != 0)
    {
      if !flags.checkCorrectness { return 0, false; }
      return Lookup(version, key, 0), Lookup(rc, key, 0) != 0;
    }

    method CheckReadCorrect(key: string, value: string, wasFound: bool, startTime: int,
                            initialVersion: int, writesPending: bool, now: int)
      returns (err: Option<Complaint>)
      requires Valid()
      modifies this`checksRun
      ensures
        var verdict := Judge(flags, View(key), value, wasFound, startTime, initialVersion, writesPending, now);
        if flags.checkCorrectness
        then err == verdict.Error() &&
             checksRun == if verdict.Skipped? then old(checksRun) else (old(checksRun) + 1) % TWO64
        else err == None && checksRun == old(checksRun)
    {
      if !flags.checkCorrectness { return None; }
      var currentVersion := Lookup(version, key, 0);
      if currentVersion != initialVersion || writesPending || Lookup(rc, key, 0) != 0 { return None; }
      checksRun := (checksRun + 1) % TWO64;
      var current := Lookup(values, key, map[]);
      if !wasFound {
        var someValueExpired, notExpired := ScanExpiry(current, now);
        assert !someValueExpired ==> notExpired == set v <- current :: current[v];
        if !someValueExpired { return Some(NoValueFound(notExpired)); }
      } else {
        if value !in current {
          if value in Lookup(overwritten, key, map[]) { return Some(WasOverwritten(value)); }
          return Some(NeverWritten(value));
        }
        if flags.checkTtl && !current[value].failed && current[value].definitelyExpiredBy < startTime {
          return Some(AlreadyExpired(value));
        }
      }
      return None;
    }
  }
}
