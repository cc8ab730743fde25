/**
 Printing, parsing and checking bcrypt hashes with the deterministic salt.

 The cipher itself is a parameter: any function from password, cost and decoded
 salt to 24 bytes.
 */
module Bcrypt {
  import opened Options
  import opened Base64

  const DOLLAR: Byte := 36   // '$'
  const MAJOR: Byte := 50    // '2'
  const MINOR: Byte := 97    // 'a'
  const MIN_COST := 4
  const MAX_COST := 31
  const DEFAULT_COST := 10
  const ENCODED_SALT_SIZE := 22
  const ENCODED_HASH_SIZE := 31
  const MIN_HASH_SIZE := 59
  const CRYPTED_SIZE := 23

  datatype Hashed = Hashed(hash: Bytes, salt: Bytes, cost: int, major: Byte, minor: Byte)

  datatype Error =
    | HashTooShort
    | InvalidHashPrefix(b: Byte)
    | HashVersionTooNew(b: Byte)
    | NotANumber
    | InvalidCost(cost: int)
    | CorruptSalt
    | Mismatched

  predicate CostAllowed(cost: int) {
    MIN_COST <= cost <= MAX_COST
  }

  // ---- printing ----------------------------------------------------------------------------

  function Digit(d: int): Byte
    requires 0 <= d < 10
  {
    48 + d
  }

  function Zeros(n: nat): (r: Bytes)
    ensures |r| == n && forall i :: 0 <= i < n ==> r[i] == 0
  {
    if n == 0 then [] else [0] + Zeros(n - 1)
  }

  function Decimal(n: nat): Bytes {
    if n < 10 then [Digit(n)] else Decimal(n / 10) + [Digit(n % 10)]
  }

  /** The cost with at least two characters. */
  function CostText(cost: int): Bytes {
    if cost < 0 then [45] + Decimal(-cost)
    else if cost < 10 then [48, Digit(cost)]
    else Decimal(cost)
  }

  function Version(p: Hashed): Bytes {
    [DOLLAR, p.major] + (if p.minor != 0 then [p.minor] else [])
  }

  /** The room for cost, salt and hash is fixed; later parts overwrite what earlier ones wrote beyond their room. */
  function FrontByte(p: Hashed, i: nat): Byte {
    var m := |Version(p)|;
    if i < m then Version(p)[i]
    else if i == m || i == m + 3 then DOLLAR
    else if i <= m + |CostText(p.cost)| then CostText(p.cost)[i - m - 1]
    else 0
  }

  function PrintedByte(p: Hashed, i: nat): Byte {
    var m := |Version(p)| + 4;
    var h := m + ENCODED_SALT_SIZE;
    if h <= i < h + |p.hash| then p.hash[i - h]
    else if m <= i < m + |p.salt| then p.salt[i - m]
    else FrontByte(p, i)
  }

  function PrintedUpTo(p: Hashed, n: nat): (r: Bytes)
    ensures |r| == n && forall i :: 0 <= i < n ==> r[i] == PrintedByte(p, i)
  {
    if n == 0 then [] else PrintedUpTo(p, n - 1) + [PrintedByte(p, n - 1)]
  }

  /** The printed form of any record, well formed or not. */
  function Print(p: Hashed): (r: Bytes)
    ensures |r| == |Version(p)| + 4 + ENCODED_SALT_SIZE + ENCODED_HASH_SIZE
  {
    PrintedUpTo(p, |Version(p)| + 4 + ENCODED_SALT_SIZE + ENCODED_HASH_SIZE)
  }

  /** The prefix of a record whose cost has two digits: "$", the version, "$", the cost, "$". */
  function Header(p: Hashed): Bytes
    requires 0 <= p.cost < 100
  {
    Version(p) + [DOLLAR, Digit(p.cost / 10), Digit(p.cost % 10), DOLLAR]
  }

  /** Longer hashes are cut, shorter ones are followed by zero bytes. */
  function Fit(hash: Bytes): Bytes {
    if |hash| >= ENCODED_HASH_SIZE then hash[..ENCODED_HASH_SIZE]
    else hash + Zeros(ENCODED_HASH_SIZE - |hash|)
  }

  lemma TwoDigits(cost: int)
    requires 0 <= cost < 100
    ensures CostText(cost) == [Digit(cost / 10), Digit(cost % 10)]
  {
    if cost >= 10 { assert Decimal(cost / 10) == [Digit(cost / 10)]; }
  }

  /** With a two-digit cost and a salt of its proper size nothing overlaps. */
  lemma PrintedParts(p: Hashed)
    requires 0 <= p.cost < 100 && |p.salt| == ENCODED_SALT_SIZE
    ensures Print(p) == Header(p) + p.salt + Fit(p.hash)
  {
    TwoDigits(p.cost);
    FitExact(p.hash);
    var r := Header(p) + p.salt + Fit(p.hash);
    forall i | 0 <= i < |r| ensures r[i] == PrintedByte(p, i) {}
  }

  /** Go's copy: as much of `src` as fits at `at`. */
  method CopyInto(arr: array<Byte>, at: nat, src: Bytes)
    requires at <= arr.Length
    modifies arr
    ensures forall i :: 0 <= i < arr.Length ==>
              arr[i] == if at <= i < at + |src| then src[i - at] else old(arr[i])
  {
    var n := if |src| < arr.Length - at then |src| else arr.Length - at;
    for k := 0 to n
      invariant forall i :: 0 <= i < arr.Length ==> arr[i] == if at <= i < at + k then src[i - at] else old(arr[i])
    {
      arr[at + k] := src[k];
    }
  }

  /** Writes the version; returns where it ends. */
  method WriteVersion(arr: array<Byte>, p: Hashed) returns (n: nat)
    requires arr.Length == 60 && forall i :: 0 <= i < 60 ==> arr[i] == 0
    modifies arr
    ensures n == (if p.minor != 0 then 3 else 2)
    ensures arr[..n] == Version(p)
    ensures forall i :: n <= i < 60 ==> arr[i] == 0
  {
    arr[0] := DOLLAR;
    arr[1] := p.major;
    n := 2;
    if p.minor != 0 {
      arr[2] := p.minor;
      n := 3;
    }
  }

  /** Writes version and cost; returns where they end. */
  method WriteFront(arr: array<Byte>, p: Hashed) returns (n: nat)
    requires arr.Length == 60 && forall i :: 0 <= i < 60 ==> arr[i] == 0
    modifies arr
    ensures n == |Version(p)| + 4
    ensures forall i :: 0 <= i < 60 ==> arr[i] == FrontByte(p, i)
  {
    n := WriteVersion(arr, p);
    assert forall i :: 0 <= i < n ==> arr[i] == arr[..n][i] == Version(p)[i];
    arr[n] := DOLLAR;
    n := n + 1;
    CopyInto(arr, n, CostText(p.cost));
    n := n + 2;
    arr[n] := DOLLAR;
    n := n + 1;
  }

  /** Fills the printed form into a 60-byte array, as the program does. */
  method Hash(p: Hashed) returns (r: Bytes)
    ensures r == Print(p)
  {
    var arr := new Byte[60](i => 0);
    var n := WriteFront(arr, p);
    CopyInto(arr, n, p.salt);
    n := n + ENCODED_SALT_SIZE;
    CopyInto(arr, n, p.hash);
    n := n + ENCODED_HASH_SIZE;
    assert forall i :: 0 <= i < n ==> arr[i] == PrintedByte(p, i);
    return arr[..n];
  }

  // ---- parsing -----------------------------------------------------------------------------

  function DigitValue(b: Byte): Option<int> {
    if 48 <= b < 58 then Some(b - 48) else None
  }

  /** The number two bytes spell; a sign may take the place of the first digit. */
  function Atoi2(a: Byte, b: Byte): Option<int> {
    match DigitValue(b)
    case None => None
    case Some(y) =>
      if a == 43 then Some(y)
      else if a == 45 then Some(-y)
      else match DigitValue(a)
           case None => None
           case Some(x) => Some(10 * x + y)
  }

  /** Major and minor version, and how many bytes they and their separators take. */
  function VersionOf(s: Bytes): Result<(Byte, Byte, nat), Error>
    requires |s| >= 3
  {
    if s[0] != DOLLAR then Err(InvalidHashPrefix(s[0]))
    else if s[1] > MAJOR then Err(HashVersionTooNew(s[1]))
    else if s[2] != DOLLAR then Ok((s[1], s[2], 4))
    else Ok((s[1], 0, 3))
  }

  function CostOf(s: Bytes): Result<int, Error>
    requires |s| >= 2
  {
    match Atoi2(s[0], s[1])
    case None => Err(NotANumber)
    case Some(c) => if CostAllowed(c) then Ok(c) else Err(InvalidCost(c))
  }

  function Parse(s: Bytes): Result<Hashed, Error> {
    if |s| < MIN_HASH_SIZE then Err(HashTooShort)
    else
      match VersionOf(s)
      case Err(e) => Err(e)
      case Ok((major, minor, n)) =>
        match CostOf(s[n..])
        case Err(e) => Err(e)
        case Ok(cost) =>
          var rest := s[n + 3..];
          Ok(Hashed(rest[ENCODED_SALT_SIZE..], rest[..ENCODED_SALT_SIZE], cost, major, minor))
  }

  /** The parser's record, filled in field by field. */
  class Parser {
    var hash: Bytes
    var salt: Bytes
    var cost: int
    var major: Byte
    var minor: Byte

    constructor ()
      ensures Value() == Hashed([], [], 0, 0, 0)
    {
      hash, salt, cost, major, minor := [], [], 0, 0, 0;
    }

    function Value(): Hashed
      reads this
    {
      Hashed(hash, salt, cost, major, minor)
    }

    /** Returns how many bytes the version and its separators take. */
    method DecodeVersion(s: Bytes) returns (r: Result<nat, Error>)
      requires |s| >= 3
      requires minor == 0
      modifies this`major, this`minor
      ensures match VersionOf(s)
              case Err(e) => r == Err(e) && major == old(major) && minor == old(minor)
              case Ok(v) => r == Ok(v.2) && major == v.0 && minor == v.1
    {
      if s[0] != DOLLAR { return Err(InvalidHashPrefix(s[0])); }
      if s[1] > MAJOR { return Err(HashVersionTooNew(s[1])); }
      major := s[1];
      var n := 3;
      if s[2] != DOLLAR {
        minor := s[2];
        n := n + 1;
      }
      return Ok(n);
    }

    /** Returns how many bytes the cost and its separator take. */
    method DecodeCost(s: Bytes) returns (r: Result<nat, Error>)
      requires |s| >= 2
      modifies this`cost
      ensures match CostOf(s)
              case Err(e) => r == Err(e) && cost == old(cost)
              case Ok(c) => r == Ok(3) && cost == c
    {
      var c := Atoi2(s[0], s[1]);
      if c.None? { return Err(NotANumber); }
      if !CostAllowed(c.value) { return Err(InvalidCost(c.value)); }
      cost := c.value;
      return Ok(3);
    }
  }

  /** The parser; null exactly when there is an error. */
  method NewFromHash(hashedSecret: Bytes) returns (p: Parser?, err: Option<Error>)
    ensures p == null <==> err.Some?
    ensures p != null ==> fresh(p)
    ensures Parse(hashedSecret) == if p == null then Err(err.value) else Ok(p.Value())
  {
    if |hashedSecret| < MIN_HASH_SIZE { return null, Some(HashTooShort); }
    var record := new Parser();
    var n := record.DecodeVersion(hashedSecret);
    if n.Err? { return null, Some(n.error); }
    var rest := hashedSecret[n.value..];
    var c := record.DecodeCost(rest);
    if c.Err? { return null, Some(c.error); }
    rest := rest[c.value..];
    record.salt := rest[..ENCODED_SALT_SIZE];
    record.hash := rest[ENCODED_SALT_SIZE..];
    return record, None;
  }

  /** What parsing makes of any input, byte by byte. */
  lemma ParseExact(s: Bytes)
    ensures
      if |s| < 59 then Parse(s) == Err(HashTooShort)
      else if s[0] != 36 then Parse(s) == Err(InvalidHashPrefix(s[0]))
      else if s[1] > 50 then Parse(s) == Err(HashVersionTooNew(s[1]))
      else
        var n := if s[2] == 36 then 3 else 4;
        var tens: int, units: int := s[n] as int - 48, s[n + 1] as int - 48;
        if !(0 <= units <= 9) || !(0 <= tens <= 9 || s[n] == 43 || s[n] == 45) then Parse(s) == Err(NotANumber)
        else
          var cost := if s[n] == 43 then units else if s[n] == 45 then -units else 10 * tens + units;
          Parse(s) ==
            if 4 <= cost <= 31
            then Ok(Hashed(s[n + 25..], s[n + 3..n + 25], cost, s[1], if n == 4 then s[2] else 0))
            else Err(InvalidCost(cost))
  {
    if |s| >= 59 {
      var n := if s[2] == 36 then 3 else 4;
      assert s[n..][0] == s[n] && s[n..][1] == s[n + 1];
      assert s[n + 3..][22..] == s[n + 25..] && s[n + 3..][..22] == s[n + 3..n + 25];
    }
  }

  lemma CostDigits(cost: int)
    requires CostAllowed(cost)
    ensures Atoi2(Digit(cost / 10), Digit(cost % 10)) == Some(cost)
  {}

  lemma PrintShape(p: Hashed)
    requires 0 <= p.cost < 100 && |p.salt| == ENCODED_SALT_SIZE
    ensures
      var s := Print(p);
      var m := if p.minor != 0 then 4 else 3;
      && |s| == m + 3 + ENCODED_SALT_SIZE + ENCODED_HASH_SIZE
      && s[0] == DOLLAR && s[1] == p.major && s[2] == (if p.minor != 0 then p.minor else DOLLAR) && s[m - 1] == DOLLAR
      && s[m] == Digit(p.cost / 10) && s[m + 1] == Digit(p.cost % 10)
      && s[m + 3..] == p.salt + Fit(p.hash)
  {
    PrintedParts(p);
    assert Print(p) == Header(p) + (p.salt + Fit(p.hash));
  }

  /** A hash whose fields are well formed parses back to itself. */
  lemma ParsesBack(p: Hashed)
    requires CostAllowed(p.cost) && |p.salt| == ENCODED_SALT_SIZE
    requires p.major <= MAJOR && p.minor != DOLLAR
    ensures Parse(Print(p)) == Ok(p.(hash := Fit(p.hash)))
  {
    PrintShape(p);
    CostDigits(p.cost);
    var n := if p.minor != 0 then 4 else 3;
    assert Print(p)[n..][0] == Print(p)[n] && Print(p)[n..][1] == Print(p)[n + 1];
    assert (p.salt + Fit(p.hash))[..ENCODED_SALT_SIZE] == p.salt;
    assert (p.salt + Fit(p.hash))[ENCODED_SALT_SIZE..] == Fit(p.hash);
  }

  lemma FitExact(hash: Bytes)
    ensures |Fit(hash)| == ENCODED_HASH_SIZE && (Fit(hash) == hash <==> |hash| == ENCODED_HASH_SIZE)
  {}

  /** A '$' as minor version, or a major version above '2', does not parse. */
  lemma DoesNotParse(p: Hashed)
    requires CostAllowed(p.cost) && |p.salt| == ENCODED_SALT_SIZE
    requires p.major > MAJOR || p.minor == DOLLAR
    ensures Parse(Print(p)).Err?
  {
    PrintShape(p);
    if p.major <= MAJOR {
      assert Print(p)[3..][0] == Print(p)[3] == DOLLAR;
    }
  }

  /** Parsing undoes printing exactly for well-formed records with a readable version. */
  lemma PrintParse(p: Hashed)
    ensures Parse(Print(p)) == Ok(p) <==>
              && CostAllowed(p.cost) && |p.salt| == ENCODED_SALT_SIZE && |p.hash| == ENCODED_HASH_SIZE
              && p.major <= MAJOR && p.minor != DOLLAR
  {
    FitExact(p.hash);
    if CostAllowed(p.cost) && |p.salt| == ENCODED_SALT_SIZE {
      if p.major <= MAJOR && p.minor != DOLLAR { ParsesBack(p); } else { DoesNotParse(p); }
    } else if Parse(Print(p)) == Ok(p) {
      ParsedShape(Print(p));
    }
  }

  function VersionLength(s: Bytes): nat
    requires |s| >= 3
  {
    if s[2] != DOLLAR then 4 else 3
  }

  /** The bytes that parsing skips or reads in more than one way are the ones printing writes. */
  predicate Canonical(s: Bytes)
    requires |s| >= MIN_HASH_SIZE
  {
    var n := VersionLength(s);
    && |s| == n + 3 + ENCODED_SALT_SIZE + ENCODED_HASH_SIZE
    && s[2] != 0 && s[n - 1] == DOLLAR && s[n] != 43 && s[n + 2] == DOLLAR
  }

  lemma DigitsCanonical(a: Byte, b: Byte)
    requires Atoi2(a, b).Some? && CostAllowed(Atoi2(a, b).value)
    ensures
      var c := Atoi2(a, b).value;
      Digit(c % 10) == b && (Digit(c / 10) == a <==> a != 43)
  {}

  lemma ParsedShape(s: Bytes)
    requires Parse(s).Ok?
    ensures
      var n := VersionLength(s);
      var p := Parse(s).value;
      && s[0] == DOLLAR && s[1] == p.major && p.minor == (if n == 4 then s[2] else 0)
      && Atoi2(s[n], s[n + 1]) == Some(p.cost) && CostAllowed(p.cost)
      && |p.salt| == ENCODED_SALT_SIZE && s[n + 3..] == p.salt + p.hash
  {
    var n := VersionLength(s);
    assert s[n..][0] == s[n] && s[n..][1] == s[n + 1];
    var rest := s[n + 3..];
    assert rest == rest[..ENCODED_SALT_SIZE] + rest[ENCODED_SALT_SIZE..];
  }

  lemma PrintedEqual(s: Bytes, p: Hashed)
    requires |s| >= MIN_HASH_SIZE && 0 <= p.cost < 100 && |p.salt| == ENCODED_SALT_SIZE
    ensures
      var m := if p.minor != 0 then 4 else 3;
      Print(p) == s <==>
        && s[0] == DOLLAR && s[1] == p.major && s[2] == (if p.minor != 0 then p.minor else DOLLAR)
        && s[m - 1] == DOLLAR && s[m] == Digit(p.cost / 10) && s[m + 1] == Digit(p.cost % 10) && s[m + 2] == DOLLAR
        && s[m + 3..] == p.salt + Fit(p.hash)
  {
    var m := if p.minor != 0 then 4 else 3;
    var front := Header(p);
    PrintedParts(p);
    assert Print(p) == front + (p.salt + Fit(p.hash));
    assert s == s[..m + 3] + s[m + 3..];
    assert |front| == m + 3;
    if Print(p) == s { PrintShape(p); }
  }

  /** Printing undoes parsing exactly for canonical hashes. */
  lemma ParsePrint(s: Bytes)
    requires Parse(s).Ok?
    ensures Print(Parse(s).value) == s <==> Canonical(s)
  {
    var p := Parse(s).value;
    var n := VersionLength(s);
    ParsedShape(s);
    PrintedEqual(s, p);
    FitExact(p.hash);
    DigitsCanonical(s[n], s[n + 1]);
    assert p.salt + p.hash == p.salt + Fit(p.hash) <==> p.hash == Fit(p.hash) by {
      assert (p.salt + p.hash)[|p.salt|..] == p.hash;
      assert (p.salt + Fit(p.hash))[|p.salt|..] == Fit(p.hash);
    }
  }

  // ---- generating and comparing ---------------------------------------------------------------

  type Block = s: Bytes | |s| == 24 witness Zeros(24)

  type Cipher = (Bytes, int, Bytes) -> Block

  function Crypt(f: Cipher, password: Bytes, cost: int, salt: Bytes): Result<Bytes, Error> {
    match Decode(salt)
    case None => Err(CorruptSalt)
    case Some(csalt) => Ok(Encode(f(password, cost, csalt)[..CRYPTED_SIZE]))
  }

  function EffectiveCost(cost: int): int {
    if cost < MIN_COST then DEFAULT_COST else cost
  }

  /** The fixed salt: sixteen times 'a'. */
  const SALT: Bytes := [97, 97, 97, 97, 97, 97, 97, 97, 97, 97, 97, 97, 97, 97, 97, 97]

  function FromPassword(f: Cipher, password: Bytes, cost: int): Result<Hashed, Error> {
    var c := EffectiveCost(cost);
    if !CostAllowed(c) then Err(InvalidCost(c))
    else
      match Crypt(f, password, c, Encode(SALT))
      case Err(e) => Err(e)
      case Ok(hash) => Ok(Hashed(hash, Encode(SALT), c, MAJOR, MINOR))
  }

  function GenerateFromPassword(f: Cipher, password: Bytes, cost: int): Result<Bytes, Error> {
    match FromPassword(f, password, cost)
    case Err(e) => Err(e)
    case Ok(p) => Ok(Print(p))
  }

  /** None is success. */
  function CompareHashAndPassword(f: Cipher, hashedPassword: Bytes, password: Bytes): Option<Error> {
    match Parse(hashedPassword)
    case Err(e) => Some(e)
    case Ok(p) =>
      match Crypt(f, password, p.cost, p.salt)
      case Err(e) => Some(e)
      case Ok(other) => if Print(p) == Print(p.(hash := other)) then None else Some(Mismatched)
  }

  function Cost(hashedPassword: Bytes): Result<int, Error> {
    match Parse(hashedPassword)
    case Err(e) => Err(e)
    case Ok(p) => Ok(p.cost)
  }

  lemma SaltDecodes(salt: Bytes)
    requires |salt| == 16
    ensures |Encode(salt)| == ENCODED_SALT_SIZE && Decode(Encode(salt)) == Some(salt)
  {
    RoundTrip(salt);
  }

  lemma EncodedHashSize(hash: Bytes)
    requires |hash| == CRYPTED_SIZE
    ensures |Encode(hash)| == ENCODED_HASH_SIZE
  {}

  lemma CryptedSize(f: Cipher, password: Bytes, cost: int, salt: Bytes)
    requires |salt| == 16
    ensures Crypt(f, password, cost, Encode(salt)).Ok?
    ensures |Crypt(f, password, cost, Encode(salt)).value| == ENCODED_HASH_SIZE
  {
    SaltDecodes(salt);
    EncodedHashSize(f(password, cost, salt)[..CRYPTED_SIZE]);
  }

  /** Generation fails only on a cost above the maximum, and prints a hash that parses back. */
  lemma GeneratedParses(f: Cipher, password: Bytes, cost: int)
    ensures GenerateFromPassword(f, password, cost).Ok? <==> cost <= MAX_COST
    ensures cost <= MAX_COST ==>
              Parse(GenerateFromPassword(f, password, cost).value) == FromPassword(f, password, cost)
  {
    if cost <= MAX_COST {
      CryptedSize(f, password, EffectiveCost(cost), SALT);
      SaltDecodes(SALT);
      PrintParse(FromPassword(f, password, cost).value);
    }
  }

  lemma PrintedHash(p: Hashed, other: Bytes)
    requires 0 <= p.cost < 100 && |p.salt| == ENCODED_SALT_SIZE && |p.hash| == ENCODED_HASH_SIZE == |other|
    ensures Print(p) == Print(p.(hash := other)) <==> p.hash == other
  {
    var front := Header(p) + p.salt;
    PrintedParts(p);
    PrintedParts(p.(hash := other));
    assert Print(p)[|front|..] == p.hash;
    assert Print(p.(hash := other))[|front|..] == other;
  }

  /**
   For any cipher: a generated hash reports the cost it was made with, and accepts
   a password exactly when the cipher agrees on its first 23 bytes with those of
   the password it was made from.
   */
  lemma GeneratedAccepts(f: Cipher, password: Bytes, guess: Bytes, cost: int)
    requires cost <= MAX_COST
    ensures
      var h := GenerateFromPassword(f, password, cost);
      var c := EffectiveCost(cost);
      && h.Ok? && Cost(h.value) == Ok(c)
      && CompareHashAndPassword(f, h.value, guess)
         == (if f(password, c, SALT)[..CRYPTED_SIZE] == f(guess, c, SALT)[..CRYPTED_SIZE]
             then None else Some(Mismatched))
  {
    var c := EffectiveCost(cost);
    GeneratedParses(f, password, cost);
    CryptedSize(f, password, c, SALT);
    CryptedSize(f, guess, c, SALT);
    SaltDecodes(SALT);
    var p := FromPassword(f, password, cost).value;
    PrintedHash(p, Crypt(f, guess, c, p.salt).value);
    EncodeInjective(f(password, c, SALT)[..CRYPTED_SIZE], f(guess, c, SALT)[..CRYPTED_SIZE]);
  }

  /** In particular the password itself is accepted. */
  lemma OwnPasswordAccepted(f: Cipher, password: Bytes, cost: int)
    requires cost <= MAX_COST
    ensures GenerateFromPassword(f, password, cost).Ok?
    ensures CompareHashAndPassword(f, GenerateFromPassword(f, password, cost).value, password) == None
  {
    GeneratedAccepts(f, password, password, cost);
  }

  /** "$2a$", two digits of cost, "$". */
  function Prefix2a(cost: int): Bytes
    requires 0 <= cost < 100
  {
    [36, 50, 97, 36, 48 + cost / 10, 48 + cost % 10, 36]
  }

  lemma PrintedBytes(hash: Bytes, salt: Bytes, cost: int)
    requires 4 <= cost <= 31 && |salt| == 22 && |hash| == 31
    ensures Print(Hashed(hash, salt, cost, 50, 97)) == Prefix2a(cost) + salt + hash
  {
    var p := Hashed(hash, salt, cost, 50, 97);
    PrintedParts(p);
    FitExact(hash);
    assert Header(p) == Prefix2a(cost);
  }

  lemma GeneratedRecord(f: Cipher, password: Bytes, cost: int, salt: Bytes)
    requires |salt| == 16 && forall i :: 0 <= i < 16 ==> salt[i] == 97
    ensures
      var c := if cost < 4 then 10 else cost;
      if cost > 31 then FromPassword(f, password, cost) == Err(InvalidCost(cost))
      else FromPassword(f, password, cost) == Ok(Hashed(Encode(f(password, c, salt)[..23]), Encode(salt), c, 50, 97))
  {
    assert salt == SALT;
    SaltDecodes(salt);
  }

  /**
   The generated hash, byte for byte: "$2a$", the cost in two digits (10 for a cost
   below 4), "$", the encoding of sixteen times 'a', and the encoding of the first 23
   bytes that the cipher makes of password, cost and that salt.
   */
  lemma GeneratedForm(f: Cipher, password: Bytes, cost: int, salt: Bytes)
    requires |salt| == 16 && forall i :: 0 <= i < 16 ==> salt[i] == 97
    ensures
      var c := if cost < 4 then 10 else cost;
      if cost > 31 then GenerateFromPassword(f, password, cost) == Err(InvalidCost(cost))
      else
        && GenerateFromPassword(f, password, cost) ==
             Ok(Prefix2a(c) + Encode(salt) + Encode(f(password, c, salt)[..23]))
        && |Encode(salt)| == 22 && |Encode(f(password, c, salt)[..23])| == 31
  {
    GeneratedRecord(f, password, cost, salt);
    if cost <= 31 {
      var c := if cost < 4 then 10 else cost;
      var hash := f(password, c, salt)[..23];
      SaltDecodes(salt);
      EncodedHashSize(hash);
      PrintedBytes(Encode(hash), Encode(salt), c);
    }
  }

  /** Neither accepted nor of any cost: what does not parse. */
  lemma UnparsedRejected(f: Cipher, hashedPassword: Bytes, password: Bytes)
    requires Parse(hashedPassword).Err?
    ensures CompareHashAndPassword(f, hashedPassword, password) == Some(Parse(hashedPassword).error)
    ensures Cost(hashedPassword) == Err(Parse(hashedPassword).error)
  {}

  /**
   Comparing with any hash that parses: its salt must decode, and its hash must begin
   with the 31 symbols that the cipher makes of the guess; whatever follows them is ignored.
   */
  lemma CompareExact(f: Cipher, hashedPassword: Bytes, password: Bytes)
    requires Parse(hashedPassword).Ok?
    ensures
      var p := Parse(hashedPassword).value;
      var err := CompareHashAndPassword(f, hashedPassword, password);
      && Cost(hashedPassword) == Ok(p.cost)
      && match Decode(p.salt)
         case None => err == Some(CorruptSalt)
         case Some(salt) =>
           err == if |p.hash| >= 31 && p.hash[..31] == Encode(f(password, p.cost, salt)[..23])
                  then None else Some(Mismatched)
  {
    var p := Parse(hashedPassword).value;
    ParsedShape(hashedPassword);
    if Decode(p.salt).Some? {
      var out := Encode(f(password, p.cost, Decode(p.salt).value)[..23]);
      EncodedHashSize(f(password, p.cost, Decode(p.salt).value)[..23]);
      PrintedFit(p, out);
      EncodeShape(f(password, p.cost, Decode(p.salt).value)[..23]);
      FitIs(p.hash, out);
    }
  }

  lemma PrintedFit(p: Hashed, other: Bytes)
    requires 0 <= p.cost < 100 && |p.salt| == ENCODED_SALT_SIZE && |other| == ENCODED_HASH_SIZE
    ensures Print(p) == Print(p.(hash := other)) <==> Fit(p.hash) == other
  {
    var front := Header(p) + p.salt;
    PrintedParts(p);
    PrintedParts(p.(hash := other));
    FitExact(p.hash);
    assert Print(p)[|front|..] == Fit(p.hash);
    assert Print(p.(hash := other))[|front|..] == other;
  }

  /** A zero byte is no symbol, so a hash that is too short fits nothing. */
  lemma FitIs(hash: Bytes, out: Bytes)
    requires |out| == ENCODED_HASH_SIZE && forall i :: 0 <= i < |out| ==> IsSymbol(out[i])
    ensures Fit(hash) == out <==> |hash| >= ENCODED_HASH_SIZE && hash[..ENCODED_HASH_SIZE] == out
  {
    assert IsSymbol(out[ENCODED_HASH_SIZE - 1]) && !IsSymbol(0);
    assert |hash| < ENCODED_HASH_SIZE ==> Fit(hash)[ENCODED_HASH_SIZE - 1] == 0;
  }
}
