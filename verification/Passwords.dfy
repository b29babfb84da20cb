/** Password hashing schemes and their upgrades (crates/handlers/src/passwords.rs). The hashing library
    and Unicode normalisation are parameters; salts stand for the random numbers drawn. */
module Passwords {
  import opened Text

  datatype Algorithm = Bcrypt(cost: Option<nat>) | Argon2id | Pbkdf2

  datatype Hasher = Hasher(algorithm: Algorithm, normalizes: bool, pepper: Option<string>)

  /** `hash` takes a secret, an input and a salt; `verify` takes a secret, a hash and an input. `None` is
      an error. `view` is what an algorithm sees of an input: bcrypt sees the first bytes only; `None` is
      an input it refuses. */
  datatype Library = Library(
    nfkc: string -> string,
    view: (Algorithm, string) -> Option<string>,
    hash: (Algorithm, Option<string>, string, nat) -> Option<string>,
    verify: (Algorithm, Option<string>, string, string) -> Option<bool>)

  /** What is asked of the library: a hash verifies with exactly the inputs that look to the algorithm
      like the one it was made from, with the secret it was made with and no other, whatever the cost
      given; a refused input is an error. */
  ghost predicate Lawful(lib: Library) {
    forall a, b, secret, secret', input, salt, other :: LawfulAt(lib, a, b, secret, secret', input, salt, other)
  }

  ghost predicate LawfulAt(lib: Library, a: Algorithm, b: Algorithm, secret: Option<string>, secret': Option<string>,
                           input: string, salt: nat, other: string) {
    lib.hash(a, secret, input, salt).Some? && SameKind(a, b) ==>
      && lib.view(b, input).Some?
      && lib.verify(b, secret', lib.hash(a, secret, input, salt).value, other)
           == Compare(if secret == secret' then lib.view(b, input) else None, lib.view(b, other))
  }

  function Compare(made: Option<string>, given: Option<string>): Option<bool> {
    if given.None? then None else Some(made == given)
  }

  predicate SameKind(a: Algorithm, b: Algorithm) { a.Bcrypt? == b.Bcrypt? && a.Argon2id? == b.Argon2id? }

  datatype Error = ManagerDisabled | EmptyIterator | SchemeNotFound | LibraryError

  datatype Verification<T> = Success(data: T) | Failure

  function WithData<T, U>(v: Verification<T>, data: U): Verification<U> {
    if v.Success? then Success(data) else Failure
  }

  // ---------------------------------------------------------------- hashers

  function Normalize(lib: Library, h: Hasher, password: string): string {
    if h.normalizes then lib.nfkc(password) else password
  }

  /** Bcrypt and PBKDF2 get the pepper appended to the password, Argon2 as a secret. */
  function Input(h: Hasher, password: string): string {
    if h.pepper.Some? && !h.algorithm.Argon2id? then password + h.pepper.value else password
  }

  function Secret(h: Hasher): Option<string> { if h.algorithm.Argon2id? then h.pepper else None }

  function Costed(a: Algorithm): Algorithm { if a.Bcrypt? && a.cost.None? then Bcrypt(Some(12)) else a }

  function HashBlocking(lib: Library, h: Hasher, password: string, salt: nat): Result<string, Error> {
    match lib.hash(Costed(h.algorithm), Secret(h), Input(h, Normalize(lib, h, password)), salt)
    case None => Err(LibraryError)
    case Some(hashed) => Ok(hashed)
  }

  function VerifyBlocking(lib: Library, h: Hasher, hashed: string, password: string): Result<Verification<()>, Error> {
    match lib.verify(h.algorithm, Secret(h), hashed, Input(h, Normalize(lib, h, password)))
    case None => Err(LibraryError)
    case Some(ok) => Ok(if ok then Success(()) else Failure)
  }

  /** What a hasher's algorithm sees of a password. */
  function Seen(lib: Library, h: Hasher, password: string): Option<string> {
    lib.view(h.algorithm, Input(h, Normalize(lib, h, password)))
  }

  /** The verdict on a password, given what was seen of the one hashed. */
  function Verdict(made: Option<string>, given: Option<string>): Result<Verification<()>, Error> {
    if given.None? then Err(LibraryError) else Ok(if made == given then Success(()) else Failure)
  }

  /** A hash verifies with exactly the passwords of which its hasher sees the same. */
  lemma HashThenVerify(lib: Library, h: Hasher, p: string, salt: nat, q: string)
    requires Lawful(lib) && HashBlocking(lib, h, p, salt).Ok?
    ensures Seen(lib, h, p).Some?
    ensures VerifyBlocking(lib, h, HashBlocking(lib, h, p, salt).value, q)
         == Verdict(Seen(lib, h, p), Seen(lib, h, q))
  {
    assert SameKind(Costed(h.algorithm), h.algorithm);
    assert LawfulAt(lib, Costed(h.algorithm), h.algorithm, Secret(h), Secret(h), Input(h, Normalize(lib, h, p)), salt,
                    Input(h, Normalize(lib, h, q)));
  }

  /** Whether a pepper is part of the hash: a hash made by one hasher verifies with another of the same
      kind, whose algorithm sees everything, exactly if the normalised passwords are the same with the
      peppers behind them; for Argon2, exactly if the passwords and the peppers are the same. */
  lemma PepperCounts(lib: Library, h: Hasher, h': Hasher, p: string, salt: nat, q: string)
    requires Lawful(lib) && Sharp(lib, h'.algorithm) && SameKind(h.algorithm, h'.algorithm)
    requires HashBlocking(lib, h, p, salt).Ok?
    ensures var x, y := if h.normalizes then lib.nfkc(p) else p, if h'.normalizes then lib.nfkc(q) else q;
      VerifyBlocking(lib, h', HashBlocking(lib, h, p, salt).value, q) == Ok(Success(())) <==>
        if h.algorithm.Argon2id? then x == y && h.pepper == h'.pepper
        else x + PepperText(h.pepper) == y + PepperText(h'.pepper)
  {
    assert SameKind(Costed(h.algorithm), h'.algorithm);
    var x, y := Normalize(lib, h, p), Normalize(lib, h', q);
    assert x + "" == x && y + "" == y;
    assert LawfulAt(lib, Costed(h.algorithm), h'.algorithm, Secret(h), Secret(h'), Input(h, x), salt, Input(h', y));
  }

  function PepperText(pepper: Option<string>): string { if pepper.Some? then pepper.value else "" }

  /** A hasher without a cost hashes as one with cost 12. */
  lemma DefaultCost(lib: Library, normalizes: bool, pepper: Option<string>, p: string, salt: nat)
    ensures HashBlocking(lib, Hasher(Bcrypt(None), normalizes, pepper), p, salt)
         == HashBlocking(lib, Hasher(Bcrypt(Some(12)), normalizes, pepper), p, salt)
  {
  }

  // ---------------------------------------------------------------- the manager

  datatype Manager =
    | Disabled
    | Enabled(minimumComplexity: nat, version: nat, hasher: Hasher, others: map<nat, Hasher>)

  /** The last hasher given for a version. */
  function LastFor(hashers: seq<(nat, Hasher)>, version: nat): Option<Hasher> {
    if hashers == [] then None
    else if hashers[|hashers| - 1].0 == version then Some(hashers[|hashers| - 1].1)
    else LastFor(hashers[..|hashers| - 1], version)
  }

  function Lookup(m: map<nat, Hasher>, version: nat): Option<Hasher> {
    if version in m then Some(m[version]) else None
  }

  /** `PasswordManager::new`: the first hasher is current, the rest are collected into a map. */
  method New(minimumComplexity: nat, hashers: seq<(nat, Hasher)>) returns (r: Result<Manager, Error>)
    ensures hashers == [] ==> r == Err(EmptyIterator)
    ensures hashers != [] ==>
      && r.Ok? && r.value.Enabled? && r.value.minimumComplexity == minimumComplexity
      && (r.value.version, r.value.hasher) == hashers[0]
      && forall v :: Lookup(r.value.others, v) == LastFor(hashers[1..], v)
  {
    if hashers == [] { return Err(EmptyIterator); }
    var rest := hashers[1..];
    var others: map<nat, Hasher> := map[];
    for i := 0 to |rest|
      invariant forall v :: Lookup(others, v) == LastFor(rest[..i], v)
    {
      assert rest[..i + 1][..i] == rest[..i];
      others := others[rest[i].0 := rest[i].1];
    }
    assert rest[..|rest|] == rest;
    return Ok(Enabled(minimumComplexity, hashers[0].0, hashers[0].1, others));
  }

  function HasherFor(m: Manager, version: nat): Option<Hasher>
    requires m.Enabled?
  {
    if version == m.version then Some(m.hasher) else Lookup(m.others, version)
  }

  /** `PasswordManager::hash`. */
  function Hash(lib: Library, m: Manager, password: string, salt: nat): Result<(nat, string), Error> {
    if m.Disabled? then Err(ManagerDisabled)
    else
      match HashBlocking(lib, m.hasher, password, salt)
      case Err(e) => Err(e)
      case Ok(hashed) => Ok((m.version, hashed))
  }

  /** `PasswordManager::verify`. */
  function Verify(lib: Library, m: Manager, scheme: nat, password: string, hashed: string)
    : Result<Verification<()>, Error>
  {
    if m.Disabled? then Err(ManagerDisabled)
    else
      match HasherFor(m, scheme)
      case None => Err(SchemeNotFound)
      case Some(h) => VerifyBlocking(lib, h, hashed, password)
  }

  /** `PasswordManager::verify_and_upgrade`: hashing with the current scheme goes on beside the
      verification; an error of the verification is reported first. */
  function VerifyAndUpgrade(lib: Library, m: Manager, salt: nat, scheme: nat, password: string, hashed: string)
    : Result<Verification<Option<(nat, string)>>, Error>
  {
    if m.Disabled? then Err(ManagerDisabled)
    else
      var newHash: Option<Result<(nat, string), Error>> :=
        if scheme != m.version then Some(Hash(lib, m, password, salt)) else None;
      match Verify(lib, m, scheme, password, hashed)
      case Err(e) => Err(e)
      case Ok(verification) =>
        match newHash
        case None => Ok(WithData(verification, None))
        case Some(Err(e)) => Err(e)
        case Some(Ok(upgrade)) => Ok(WithData(verification, Some(upgrade)))
  }

  // ---------------------------------------------------------------- runs of login attempts

  datatype Stored = Stored(version: nat, hash: string)

  datatype Attempt = Attempt(manager: Manager, password: string, salt: nat)

  function Outcome(lib: Library, s: Stored, a: Attempt): Result<Verification<Option<(nat, string)>>, Error> {
    VerifyAndUpgrade(lib, a.manager, a.salt, s.version, a.password, s.hash)
  }

  predicate Upgrades(lib: Library, s: Stored, a: Attempt) {
    var o := Outcome(lib, s, a);
    o.Ok? && o.value.Success? && o.value.data.Some?
  }

  /** A login stores the upgrade if there is one. */
  function After(lib: Library, s: Stored, a: Attempt): Stored {
    if Upgrades(lib, s, a) then var up := Outcome(lib, s, a).value.data.value; Stored(up.0, up.1) else s
  }

  function Run(lib: Library, s: Stored, attempts: seq<Attempt>): Stored {
    if attempts == [] then s
    else After(lib, Run(lib, s, attempts[..|attempts| - 1]), attempts[|attempts| - 1])
  }

  /** The managers of a deployment agree on what hasher a version stands for. */
  predicate Agrees(m: Manager, hashers: map<nat, Hasher>) {
    m.Enabled? ==>
      && m.version in hashers && hashers[m.version] == m.hasher
      && forall v :: v in m.others ==> v in hashers && hashers[v] == m.others[v]
  }

  /** The stored hash was made from a password that its hasher cannot tell from this one. */
  ghost predicate Holds(lib: Library, hashers: map<nat, Hasher>, s: Stored, password: string) {
    s.version in hashers && exists p, salt :: MadeFrom(lib, hashers[s.version], s.hash, password, p, salt)
  }

  ghost predicate MadeFrom(lib: Library, h: Hasher, hash: string, password: string, p: string, salt: nat) {
    HashBlocking(lib, h, p, salt) == Ok(hash) && Seen(lib, h, p) == Seen(lib, h, password)
  }

  /** While that holds, exactly the passwords that its hasher cannot tell from this one verify. */
  lemma VerifiesIff(lib: Library, hashers: map<nat, Hasher>, s: Stored, password: string, m: Manager, q: string)
    requires Lawful(lib) && Holds(lib, hashers, s, password) && Agrees(m, hashers)
    requires m.Enabled? && HasherFor(m, s.version).Some?
    ensures var h := hashers[s.version];
      && Seen(lib, h, password).Some?
      && Verify(lib, m, s.version, q, s.hash) == Verdict(Seen(lib, h, password), Seen(lib, h, q))
  {
    hide HashBlocking, VerifyBlocking, Lawful, Seen, Verdict;
    var h := hashers[s.version];
    var p, salt :| MadeFrom(lib, h, s.hash, password, p, salt);
    HashThenVerify(lib, h, p, salt, q);
  }

  predicate UpgradesAt(lib: Library, s: Stored, attempts: seq<Attempt>, j: nat)
    requires j < |attempts|
  {
    Upgrades(lib, Run(lib, s, attempts[..j]), attempts[j])
  }

  lemma RunStep(lib: Library, s: Stored, attempts: seq<Attempt>, j: nat)
    requires j < |attempts|
    ensures Run(lib, s, attempts[..j + 1]) == After(lib, Run(lib, s, attempts[..j]), attempts[j])
  {
    assert attempts[..j + 1][..j] == attempts[..j];
  }

  /** Wherever it stands in a run, an attempt that fails or errs changes nothing. */
  lemma FailureKeepsStore(lib: Library, s: Stored, attempts: seq<Attempt>, j: nat)
    requires j < |attempts| && Unsuccessful(lib, Run(lib, s, attempts[..j]), attempts[j])
    ensures Run(lib, s, attempts[..j + 1]) == Run(lib, s, attempts[..j])
  {
    hide Run, Upgrades, After, Unsuccessful;
    RunStep(lib, s, attempts, j);
    UpgradeIsCurrent(lib, Run(lib, s, attempts[..j]), attempts[j]);
  }

  /** After the first `n` attempts of a run the store has what was there before, or the upgrade of the
      last attempt that had one, with the version that was current then. */
  lemma {:induction false} StoresLastUpgrade(lib: Library, s: Stored, attempts: seq<Attempt>,
                                             n: nat) returns (last: int)
    requires n <= |attempts|
    ensures -1 <= last < n
    ensures last == -1 ==> Run(lib, s, attempts[..n]) == s
    ensures last >= 0 ==>
      UpgradesAt(lib, s, attempts, last) && Stores(lib, s, attempts, last, Run(lib, s, attempts[..n]))
    ensures forall j :: last < j < n ==> !UpgradesAt(lib, s, attempts, j)
  {
    hide Upgrades, After, UpgradesAt, Stores;
    last := -1;
    if n == 0 {
      assert attempts[..0] == [];
    } else {
      hide Run;
      last := StoresLastUpgrade(lib, s, attempts, n - 1);
      AttemptStep(lib, s, attempts, n - 1);
      if UpgradesAt(lib, s, attempts, n - 1) {
        last := n - 1;
      }
    }
  }

  /** What attempt `j` of the run stored. */
  predicate Stores(lib: Library, s: Stored, attempts: seq<Attempt>, j: nat, s': Stored)
    requires j < |attempts|
  {
    && s' == After(lib, Run(lib, s, attempts[..j]), attempts[j])
    && attempts[j].manager.Enabled? && s'.version == attempts[j].manager.version
  }

  lemma AttemptStep(lib: Library, s: Stored, attempts: seq<Attempt>, j: nat)
    requires j < |attempts|
    ensures if UpgradesAt(lib, s, attempts, j)
            then Stores(lib, s, attempts, j, Run(lib, s, attempts[..j + 1]))
            else Run(lib, s, attempts[..j + 1]) == Run(lib, s, attempts[..j])
  {
    hide Run, Upgrades, After, Unsuccessful;
    RunStep(lib, s, attempts, j);
    UpgradeIsCurrent(lib, Run(lib, s, attempts[..j]), attempts[j]);
  }

  predicate Unsuccessful(lib: Library, s: Stored, a: Attempt) {
    var o := Outcome(lib, s, a);
    o.Err? || o.value.Failure?
  }

  lemma UpgradeIsCurrent(lib: Library, s: Stored, a: Attempt)
    ensures Upgrades(lib, s, a) ==> a.manager.Enabled? && After(lib, s, a).version == a.manager.version
    ensures !Upgrades(lib, s, a) ==> After(lib, s, a) == s
    ensures Unsuccessful(lib, s, a) ==> !Upgrades(lib, s, a)
  {
    hide HashBlocking, Verify;
  }

  /** When an attempt is an error and which: a disabled manager, a version it does not know, a hash it
      cannot verify, and last a new hash it cannot make, even if the password is wrong. */
  lemma ErrorIff(lib: Library, s: Stored, a: Attempt)
    ensures Outcome(lib, s, a) == Err(ManagerDisabled) <==> a.manager.Disabled?
    ensures Hash(lib, a.manager, a.password, a.salt) == Err(ManagerDisabled) <==> a.manager.Disabled?
    ensures Verify(lib, a.manager, s.version, a.password, s.hash) == Err(ManagerDisabled) <==> a.manager.Disabled?
    ensures Outcome(lib, s, a) == Err(SchemeNotFound) <==>
      a.manager.Enabled? && s.version != a.manager.version && s.version !in a.manager.others
    ensures Outcome(lib, s, a) == Err(LibraryError) <==>
      && a.manager.Enabled? && (s.version == a.manager.version || s.version in a.manager.others)
      && (|| VerifyBlocking(lib, Reader(a.manager, s.version), s.hash, a.password).Err?
          || (s.version != a.manager.version && HashBlocking(lib, a.manager.hasher, a.password, a.salt).Err?))
    ensures Outcome(lib, s, a) != Err(EmptyIterator)
  {
    hide Normalize, Input, Secret, Costed;
  }

  /** The hasher of a version that the manager knows. */
  function Reader(m: Manager, version: nat): Hasher
    requires m.Enabled? && (version == m.version || version in m.others)
  {
    if version == m.version then m.hasher else m.others[version]
  }

  /** After a success the stored version is the current one, and the next success with that manager
      has nothing to upgrade. */
  lemma SuccessIsCurrent(lib: Library, s: Stored, a: Attempt, b: Attempt)
    requires var o := Outcome(lib, s, a); o.Ok? && o.value.Success?
    requires b.manager == a.manager
    ensures var s' := After(lib, s, a);
      && s'.version == a.manager.version
      && After(lib, s', b) == s'
      && (Outcome(lib, s', b).Ok? ==> Outcome(lib, s', b).value in {Success(None), Failure})
  {
    hide HashBlocking, Verify;
  }

  // ---------------------------------------------------------------- the same runs without hashes

  /** A store that remembers in plain what was last hashed, and with which version. */
  datatype Plain = Plain(version: nat, password: string)

  /** The attempt replaces the password `t` remembers: there is something to upgrade, the manager can
      read the stored version, its hasher cannot tell the two passwords apart, and the new one can be
      hashed. */
  predicate Replaces(lib: Library, hashers: map<nat, Hasher>, t: Plain, a: Attempt) {
    && t.version in hashers && a.manager.Enabled? && a.manager.version != t.version
    && HasherFor(a.manager, t.version).Some?
    && Seen(lib, hashers[t.version], a.password) == Seen(lib, hashers[t.version], t.password)
    && HashBlocking(lib, a.manager.hasher, a.password, a.salt).Ok?
  }

  function AfterPlain(lib: Library, hashers: map<nat, Hasher>, t: Plain, a: Attempt): Plain {
    if Replaces(lib, hashers, t, a) then Plain(a.manager.version, a.password) else t
  }

  function RunPlain(lib: Library, hashers: map<nat, Hasher>, t: Plain, attempts: seq<Attempt>): Plain {
    if attempts == [] then t
    else AfterPlain(lib, hashers, RunPlain(lib, hashers, t, attempts[..|attempts| - 1]), attempts[|attempts| - 1])
  }

  /** The store holds what the plain one remembers. */
  ghost predicate Mirrors(lib: Library, hashers: map<nat, Hasher>, s: Stored, t: Plain) {
    s.version == t.version && Holds(lib, hashers, s, t.password)
  }

  lemma UpgradesIff(lib: Library, hashers: map<nat, Hasher>, s: Stored, t: Plain, a: Attempt)
    requires Lawful(lib) && Mirrors(lib, hashers, s, t) && Agrees(a.manager, hashers)
    ensures Upgrades(lib, s, a) <==> Replaces(lib, hashers, t, a)
  {
    hide HashBlocking, VerifyBlocking, Lawful, Seen, Holds;
    if a.manager.Enabled? && HasherFor(a.manager, s.version).Some? {
      VerifiesIff(lib, hashers, s, t.password, a.manager, a.password);
    }
  }

  /** What an upgrade stores was made, with the current hasher, from the password given. */
  lemma UpgradeFacts(lib: Library, hashers: map<nat, Hasher>, s: Stored, a: Attempt)
    requires Agrees(a.manager, hashers) && Upgrades(lib, s, a)
    ensures a.manager.Enabled? && After(lib, s, a).version == a.manager.version && a.manager.version in hashers
    ensures hashers[a.manager.version] == a.manager.hasher
    ensures MadeFrom(lib, a.manager.hasher, After(lib, s, a).hash, a.password, a.password, a.salt)
    ensures Holds(lib, hashers, After(lib, s, a), a.password)
  {
    hide HashBlocking, Verify, Seen;
    assert MadeFrom(lib, a.manager.hasher, After(lib, s, a).hash, a.password, a.password, a.salt);
  }

  lemma MirrorStep(lib: Library, hashers: map<nat, Hasher>, s: Stored, t: Plain, a: Attempt)
    requires Lawful(lib) && Mirrors(lib, hashers, s, t) && Agrees(a.manager, hashers)
    ensures Mirrors(lib, hashers, After(lib, s, a), AfterPlain(lib, hashers, t, a))
  {
    hide Lawful, Holds, Agrees, Replaces, Outcome, MadeFrom;
    UpgradesIff(lib, hashers, s, t, a);
    if Upgrades(lib, s, a) {
      UpgradeFacts(lib, hashers, s, a);
    }
  }

  ghost predicate AllAgree(attempts: seq<Attempt>, hashers: map<nat, Hasher>) {
    forall i :: 0 <= i < |attempts| ==> Agrees(attempts[i].manager, hashers)
  }

  /** Over any run of attempts, right or wrong, under any managers that agree on the hashers, the
      store holds what the plain store remembers. */
  lemma {:induction false} RunMirrors(lib: Library, hashers: map<nat, Hasher>, s: Stored, t: Plain,
                                      attempts: seq<Attempt>)
    requires Lawful(lib) && Mirrors(lib, hashers, s, t) && AllAgree(attempts, hashers)
    ensures Mirrors(lib, hashers, Run(lib, s, attempts), RunPlain(lib, hashers, t, attempts))
  {
    hide Lawful, Mirrors, Agrees, After, AfterPlain;
    if attempts != [] {
      var front, last := attempts[..|attempts| - 1], attempts[|attempts| - 1];
      RunMirrors(lib, hashers, s, t, front);
      MirrorStep(lib, hashers, Run(lib, s, front), RunPlain(lib, hashers, t, front), last);
    }
  }

  /** So after any run, with every manager that has the stored version, exactly the passwords verify
      that the hasher of that version cannot tell from the one remembered. */
  lemma RunVerifiesIff(lib: Library, hashers: map<nat, Hasher>, s: Stored, original: string,
                       attempts: seq<Attempt>, m: Manager, q: string)
    requires Lawful(lib) && Holds(lib, hashers, s, original) && AllAgree(attempts, hashers) && Agrees(m, hashers)
    requires m.Enabled? && HasherFor(m, Run(lib, s, attempts).version).Some?
    ensures var end, t := Run(lib, s, attempts), RunPlain(lib, hashers, Plain(s.version, original), attempts);
      && end.version == t.version && t.version in hashers
      && Verify(lib, m, end.version, q, end.hash)
           == Verdict(Seen(lib, hashers[t.version], t.password), Seen(lib, hashers[t.version], q))
  {
    hide Lawful, Holds, Agrees, Verify, HasherFor, Seen, Verdict, AllAgree, Run, RunPlain;
    var t := RunPlain(lib, hashers, Plain(s.version, original), attempts);
    RunMirrors(lib, hashers, s, Plain(s.version, original), attempts);
    HeldIsKnown(lib, hashers, Run(lib, s, attempts), t.password);
    VerifiesIff(lib, hashers, Run(lib, s, attempts), t.password, m, q);
  }

  lemma HeldIsKnown(lib: Library, hashers: map<nat, Hasher>, s: Stored, password: string)
    requires Holds(lib, hashers, s, password)
    ensures s.version in hashers
  {
  }

  /** In particular the original still verifies exactly if the hasher of the stored version cannot
      tell it from the password remembered. */
  lemma OriginalVerifiesIff(lib: Library, hashers: map<nat, Hasher>, s: Stored, attempts: seq<Attempt>,
                            original: string, m: Manager)
    requires Lawful(lib) && Holds(lib, hashers, s, original) && AllAgree(attempts, hashers) && Agrees(m, hashers)
    requires m.Enabled? && HasherFor(m, Run(lib, s, attempts).version).Some?
    ensures var end, t := Run(lib, s, attempts), RunPlain(lib, hashers, Plain(s.version, original), attempts);
      && t.version in hashers
      && (Verify(lib, m, end.version, original, end.hash) == Ok(Success(())) <==>
            Seen(lib, hashers[t.version], original) == Seen(lib, hashers[t.version], t.password))
  {
    var t := RunPlain(lib, hashers, Plain(s.version, original), attempts);
    RunMirrors(lib, hashers, s, Plain(s.version, original), attempts);
    hide Lawful, Agrees, Verify, HasherFor, Seen, AllAgree, Run, RunPlain, Holds;
    VerifiesIff(lib, hashers, Run(lib, s, attempts), t.password, m, original);
    RunVerifiesIff(lib, hashers, s, original, attempts, m, original);
  }

  // ---------------------------------------------------------------- upgrades that lose the original

  /** An upgrade to a hasher that tells the password given from the original. */
  predicate Lossy(lib: Library, s: Stored, a: Attempt, original: string) {
    && Upgrades(lib, s, a) && a.manager.Enabled?
    && Seen(lib, a.manager.hasher, a.password) != Seen(lib, a.manager.hasher, original)
  }

  /** Each upgrade keeps the original password valid if and only if it is not lossy. */
  lemma UpgradeKeepsOriginalIff(lib: Library, hashers: map<nat, Hasher>, s: Stored, a: Attempt, original: string)
    requires Lawful(lib) && Agrees(a.manager, hashers) && Upgrades(lib, s, a)
    ensures a.manager.Enabled?
    ensures Verify(lib, a.manager, After(lib, s, a).version, original, After(lib, s, a).hash)
         == Verdict(Seen(lib, a.manager.hasher, a.password), Seen(lib, a.manager.hasher, original))
    ensures Verify(lib, a.manager, After(lib, s, a).version, original, After(lib, s, a).hash) == Ok(Success(()))
       <==> !Lossy(lib, s, a, original)
    ensures Holds(lib, hashers, After(lib, s, a), original) <==> !Lossy(lib, s, a, original)
  {
    hide HashBlocking, VerifyBlocking, Lawful, Upgrades, After, Seen;
    UpgradeFacts(lib, hashers, s, a);
    var s', h := After(lib, s, a), a.manager.hasher;
    VerifiesIff(lib, hashers, s', a.password, a.manager, original);
    if !Lossy(lib, s, a, original) {
      assert MadeFrom(lib, h, s'.hash, original, a.password, a.salt);
    }
    if Holds(lib, hashers, s', original) {
      VerifiesIff(lib, hashers, s', original, a.manager, original);
    }
  }

  ghost predicate Careful(lib: Library, s: Stored, attempts: seq<Attempt>, original: string) {
    forall i :: 0 <= i < |attempts| ==> !Lossy(lib, Run(lib, s, attempts[..i]), attempts[i], original)
  }

  /** Over any run without a lossy upgrade the store keeps holding the original. */
  lemma {:induction false} RunKeepsOriginal(lib: Library, hashers: map<nat, Hasher>, s: Stored,
                                            attempts: seq<Attempt>, original: string)
    requires Lawful(lib) && Holds(lib, hashers, s, original)
    requires AllAgree(attempts, hashers) && Careful(lib, s, attempts, original)
    ensures Holds(lib, hashers, Run(lib, s, attempts), original)
  {
    hide Lawful, Holds, Lossy, Agrees, After, Upgrades;
    if attempts != [] {
      var front, last := attempts[..|attempts| - 1], attempts[|attempts| - 1];
      forall i | 0 <= i < |front| ensures front[..i] == attempts[..i] && front[i] == attempts[i] {
      }
      RunKeepsOriginal(lib, hashers, s, front, original);
      assert !Lossy(lib, Run(lib, s, front), last, original);
      StepKeepsOriginal(lib, hashers, Run(lib, s, front), last, original);
    }
  }

  lemma StepKeepsOriginal(lib: Library, hashers: map<nat, Hasher>, s: Stored, a: Attempt, original: string)
    requires Lawful(lib) && Holds(lib, hashers, s, original) && Agrees(a.manager, hashers)
    requires !Lossy(lib, s, a, original)
    ensures Holds(lib, hashers, After(lib, s, a), original)
  {
    hide Lawful, Holds, Lossy, Agrees, Outcome;
    if Upgrades(lib, s, a) {
      UpgradeKeepsOriginalIff(lib, hashers, s, a, original);
    }
  }

  /** So the original password verifies at the end, with every manager that has the stored version. */
  lemma OriginalVerifies(lib: Library, hashers: map<nat, Hasher>, s: Stored, attempts: seq<Attempt>,
                         original: string, m: Manager)
    requires Lawful(lib) && Holds(lib, hashers, s, original)
    requires AllAgree(attempts, hashers) && Careful(lib, s, attempts, original)
    requires Agrees(m, hashers) && m.Enabled? && HasherFor(m, Run(lib, s, attempts).version).Some?
    ensures Verify(lib, m, Run(lib, s, attempts).version, original, Run(lib, s, attempts).hash) == Ok(Success(()))
  {
    hide Lawful, Holds, Careful, Agrees, Verify, HasherFor, AllAgree, Run, Seen;
    RunKeepsOriginal(lib, hashers, s, attempts, original);
    HeldIsKnown(lib, hashers, Run(lib, s, attempts), original);
    VerifiesIff(lib, hashers, Run(lib, s, attempts), original, m, original);
  }

  // ---------------------------------------------------------------- which migrations are safe

  /** Passwords that the old hasher takes for the same, the new one takes for the same, if it takes
      them at all. */
  ghost predicate Coarser(lib: Library, old_: Hasher, new_: Hasher) {
    forall p, q :: Seen(lib, old_, p).Some? && Seen(lib, old_, p) == Seen(lib, old_, q) && Seen(lib, new_, q).Some? ==>
      Seen(lib, new_, p) == Seen(lib, new_, q)
  }

  /** If each hasher of a deployment is coarser than each other one, no run has a lossy upgrade. */
  lemma {:induction false} CoarserIsCareful(lib: Library, hashers: map<nat, Hasher>, s: Stored,
                                            attempts: seq<Attempt>, original: string)
    requires Lawful(lib) && Holds(lib, hashers, s, original) && AllAgree(attempts, hashers)
    requires forall v, w :: v in hashers && w in hashers ==> Coarser(lib, hashers[v], hashers[w])
    ensures Careful(lib, s, attempts, original)
  {
    hide Lawful, Holds, Lossy, Agrees, After, Upgrades, Coarser, Run;
    forall i | 0 <= i < |attempts| ensures !Lossy(lib, Run(lib, s, attempts[..i]), attempts[i], original) {
      CoarserIsCareful(lib, hashers, s, attempts[..i], original);
      RunKeepsOriginal(lib, hashers, s, attempts[..i], original);
      CoarserStep(lib, hashers, Run(lib, s, attempts[..i]), attempts[i], original);
    }
  }

  lemma CoarserStep(lib: Library, hashers: map<nat, Hasher>, s: Stored, a: Attempt, original: string)
    requires Lawful(lib) && Holds(lib, hashers, s, original) && Agrees(a.manager, hashers)
    requires forall v, w :: v in hashers && w in hashers ==> Coarser(lib, hashers[v], hashers[w])
    ensures !Lossy(lib, s, a, original)
  {
    hide Lawful, HashBlocking, Seen, Upgrades, Holds, HasherFor;
    if Upgrades(lib, s, a) {
      UpgradeFacts(lib, hashers, s, a);
      UpgradesIff(lib, hashers, s, Plain(s.version, original), a);
      HeldIsSeen(lib, hashers, s, original);
      HeldIsSeen(lib, hashers, After(lib, s, a), a.password);
      assert Coarser(lib, hashers[s.version], hashers[a.manager.version]);
    }
  }

  lemma HeldIsSeen(lib: Library, hashers: map<nat, Hasher>, s: Stored, password: string)
    requires Lawful(lib) && Holds(lib, hashers, s, password)
    ensures s.version in hashers && Seen(lib, hashers[s.version], password).Some?
  {
    hide Lawful, HashBlocking, Seen;
    var h := hashers[s.version];
    var p, salt :| MadeFrom(lib, h, s.hash, password, p, salt);
    HashThenVerify(lib, h, p, salt, p);
  }

  /** Someone's password was hashed with the old hasher; somebody logs in under a manager that reads the
      old hashes and makes new ones; then the original verifies. */
  predicate SafeLogin(lib: Library, old_: Hasher, new_: Hasher, original: string, given: string, salt: nat) {
    var m := Enabled(0, 2, new_, map[1 := old_]);
    HashBlocking(lib, old_, original, salt).Ok? ==>
      var s := After(lib, Stored(1, HashBlocking(lib, old_, original, salt).value), Attempt(m, given, salt));
      Verify(lib, m, s.version, original, s.hash) == Ok(Success(()))
  }

  /** Hashing fails for refused passwords only. */
  ghost predicate Hashes(lib: Library, h: Hasher) {
    forall p, salt :: Seen(lib, h, p).Some? ==> HashBlocking(lib, h, p, salt).Ok?
  }

  /** A migration from one hasher to another keeps every original valid, whatever anybody types, if and
      only if the new hasher is coarser. */
  lemma MigrationIsSafeIff(lib: Library, old_: Hasher, new_: Hasher)
    requires Lawful(lib) && Hashes(lib, old_) && Hashes(lib, new_)
    ensures (forall original, given, salt :: SafeLogin(lib, old_, new_, original, given, salt))
       <==> Coarser(lib, old_, new_)
  {
    hide Lawful, HashBlocking, Seen, SafeLogin, Hashes;
    if Coarser(lib, old_, new_) {
      forall original, given, salt ensures SafeLogin(lib, old_, new_, original, given, salt) {
        LoginIsSafe(lib, old_, new_, original, given, salt);
      }
    }
    if forall original, given, salt :: SafeLogin(lib, old_, new_, original, given, salt) {
      forall p, q | Seen(lib, old_, p).Some? && Seen(lib, old_, p) == Seen(lib, old_, q) && Seen(lib, new_, q).Some?
        ensures Seen(lib, new_, p) == Seen(lib, new_, q)
      {
        assert SafeLogin(lib, old_, new_, p, q, 0);
        LoginIsLossy(lib, old_, new_, p, q, 0);
      }
    }
  }

  lemma LoginIsSafe(lib: Library, old_: Hasher, new_: Hasher, original: string, given: string, salt: nat)
    requires Lawful(lib) && Coarser(lib, old_, new_)
    ensures SafeLogin(lib, old_, new_, original, given, salt)
  {
    hide Lawful, HashBlocking, Seen, Coarser, Verify, After;
    if HashBlocking(lib, old_, original, salt).Ok? {
      var m, hashers, s := Migration(lib, old_, new_, original, salt);
      hide Agrees, Holds;
      var a := Attempt(m, given, salt);
      HeldIsSeen(lib, hashers, s, original);
      if Upgrades(lib, s, a) {
        hide Upgrades;
        UpgradeFacts(lib, hashers, s, a);
        UpgradesIff(lib, hashers, s, Plain(1, original), a);
        HeldIsSeen(lib, hashers, After(lib, s, a), given);
        NotLossy(lib, old_, new_, original, given);
        UpgradeKeepsOriginalIff(lib, hashers, s, a, original);
      } else {
        UpgradeIsCurrent(lib, s, a);
        VerifiesIff(lib, hashers, s, original, m, original);
      }
    }
  }

  lemma NotLossy(lib: Library, old_: Hasher, new_: Hasher, original: string, given: string)
    requires Coarser(lib, old_, new_) && Seen(lib, old_, original).Some? && Seen(lib, new_, given).Some?
    requires Seen(lib, old_, original) == Seen(lib, old_, given)
    ensures Seen(lib, new_, original) == Seen(lib, new_, given)
  {
    hide Seen;
  }

  /** The manager of a migration, its hashers, and the store before it. */
  lemma Migration(lib: Library, old_: Hasher, new_: Hasher, original: string, salt: nat)
    returns (m: Manager, hashers: map<nat, Hasher>, s: Stored)
    requires HashBlocking(lib, old_, original, salt).Ok?
    ensures m == Enabled(0, 2, new_, map[1 := old_]) && hashers == map[1 := old_, 2 := new_]
    ensures s == Stored(1, HashBlocking(lib, old_, original, salt).value)
    ensures Agrees(m, hashers) && Holds(lib, hashers, s, original)
    ensures HasherFor(m, 1) == Some(old_) && HasherFor(m, 2) == Some(new_)
  {
    hide HashBlocking, Seen;
    m, hashers := Enabled(0, 2, new_, map[1 := old_]), map[1 := old_, 2 := new_];
    s := Stored(1, HashBlocking(lib, old_, original, salt).value);
    assert MadeFrom(lib, old_, s.hash, original, original, salt);
  }

  /** A login with a password that the old hasher takes for the original and the new one does not. */
  lemma LoginIsLossy(lib: Library, old_: Hasher, new_: Hasher, original: string, given: string, salt: nat)
    requires Lawful(lib) && Hashes(lib, old_) && Hashes(lib, new_)
    requires Seen(lib, old_, original).Some? && Seen(lib, old_, original) == Seen(lib, old_, given)
    requires Seen(lib, new_, given).Some?
    ensures SafeLogin(lib, old_, new_, original, given, salt) <==> Seen(lib, new_, original) == Seen(lib, new_, given)
  {
    hide Lawful, HashBlocking, Seen, Verify, After, Upgrades;
    assert HashBlocking(lib, old_, original, salt).Ok? && HashBlocking(lib, new_, given, salt).Ok?;
    var m, hashers, s := Migration(lib, old_, new_, original, salt);
    hide Agrees, Holds, HasherFor, Hashes;
    var a := Attempt(m, given, salt);
    UpgradesIff(lib, hashers, s, Plain(1, original), a);
    UpgradeKeepsOriginalIff(lib, hashers, s, a, original);
  }

  // ---------------------------------------------------------------- algorithms that see everything

  /** The algorithm accepts every input and tells all of them apart. */
  ghost predicate Sharp(lib: Library, a: Algorithm) {
    (forall x :: lib.view(a, x).Some?) && forall x, y :: lib.view(a, x) == lib.view(a, y) ==> x == y
  }

  lemma InputInjective(h: Hasher, p: string, q: string)
    ensures Input(h, p) == Input(h, q) <==> p == q
  {
    if h.pepper.Some? && !h.algorithm.Argon2id? {
      assert (p + h.pepper.value)[..|p + h.pepper.value| - |h.pepper.value|] == p;
      assert (q + h.pepper.value)[..|q + h.pepper.value| - |h.pepper.value|] == q;
    }
  }

  lemma SharpSees(lib: Library, h: Hasher, p: string, q: string)
    requires Sharp(lib, h.algorithm)
    ensures Seen(lib, h, p).Some?
    ensures Seen(lib, h, p) == Seen(lib, h, q) <==> Normalize(lib, h, p) == Normalize(lib, h, q)
  {
    hide Normalize, Input;
    InputInjective(h, Normalize(lib, h, p), Normalize(lib, h, q));
  }

  /** From an algorithm that sees everything, any migration is safe that does not give up
      normalisation. */
  lemma SharpIsCoarser(lib: Library, old_: Hasher, new_: Hasher)
    requires Sharp(lib, old_.algorithm) && (old_.normalizes ==> new_.normalizes)
    ensures Coarser(lib, old_, new_)
  {
    hide Sharp;
    forall p, q | Seen(lib, old_, p) == Seen(lib, old_, q) ensures Seen(lib, new_, p) == Seen(lib, new_, q) {
      SharpSees(lib, old_, p, q);
    }
  }

  /** Between two such algorithms, giving it up is safe only if no two passwords are normalised alike. */
  lemma SharpCoarserIff(lib: Library, old_: Hasher, new_: Hasher)
    requires Sharp(lib, old_.algorithm) && Sharp(lib, new_.algorithm)
    ensures Coarser(lib, old_, new_) <==>
      (old_.normalizes ==> new_.normalizes || forall p, q :: lib.nfkc(p) == lib.nfkc(q) ==> p == q)
  {
    hide Sharp, Seen;
    if old_.normalizes && !new_.normalizes {
      forall p, q
        ensures Seen(lib, old_, p).Some? && Seen(lib, new_, q).Some?
        ensures Seen(lib, old_, p) == Seen(lib, old_, q) <==> lib.nfkc(p) == lib.nfkc(q)
        ensures Seen(lib, new_, p) == Seen(lib, new_, q) <==> p == q
      {
        SharpSees(lib, old_, p, q);
        SharpSees(lib, new_, q, p);
      }
      if Coarser(lib, old_, new_) {
        forall p, q | lib.nfkc(p) == lib.nfkc(q) ensures p == q {
          assert Seen(lib, old_, p) == Seen(lib, old_, q) && Seen(lib, new_, p) == Seen(lib, new_, q);
        }
      }
    } else {
      SharpIsCoarser(lib, old_, new_);
    }
  }

  /** So no run is lossy where all algorithms see everything and all hashers normalise, or none does. */
  lemma UniformIsCareful(lib: Library, hashers: map<nat, Hasher>, s: Stored, attempts: seq<Attempt>, original: string)
    requires Lawful(lib) && Holds(lib, hashers, s, original) && AllAgree(attempts, hashers)
    requires forall v :: v in hashers ==> Sharp(lib, hashers[v].algorithm)
    requires forall v, w :: v in hashers && w in hashers ==> hashers[v].normalizes == hashers[w].normalizes
    ensures Careful(lib, s, attempts, original)
  {
    hide Lawful, Holds, AllAgree, Sharp, Coarser, Careful;
    forall v, w | v in hashers && w in hashers ensures Coarser(lib, hashers[v], hashers[w]) {
      SharpIsCoarser(lib, hashers[v], hashers[w]);
    }
    CoarserIsCareful(lib, hashers, s, attempts, original);
  }

  // ---------------------------------------------------------------- examples

  /** Two spellings of a password, a normalising old scheme and a plain new one: logging in with the
      second spelling locks the first one out. */
  lemma LossyUpgradeLocksOut(lib: Library, original: string, other: string, old_: Hasher, new_: Hasher, salt: nat)
    requires Lawful(lib) && original != other && lib.nfkc(original) == lib.nfkc(other)
    requires old_.normalizes && !new_.normalizes && Sharp(lib, new_.algorithm)
    requires Hashes(lib, old_) && Hashes(lib, new_) && Seen(lib, old_, original).Some?
    ensures !SafeLogin(lib, old_, new_, original, other, salt)
  {
    SharpSees(lib, new_, original, other);
    SharpSees(lib, new_, other, other);
    LoginIsLossy(lib, old_, new_, original, other, salt);
  }

  /** Of bcrypt: what comes after the first 72 bytes is not looked at. Passwords here are of characters
      of one byte each. */
  ghost predicate Cuts(lib: Library) {
    && (forall cost, s :: lib.view(Bcrypt(cost), s).Some?)
    && forall cost, s, t :: |s| >= 72 && |t| >= 72 && s[..72] == t[..72] ==>
      lib.view(Bcrypt(cost), s) == lib.view(Bcrypt(cost), t)
  }

  /** The recommended migration, from bcrypt to Argon2: logging in with another password that begins with
      the same 72 bytes locks the original one out, peppered and normalised or not. */
  lemma CutUpgradeLocksOut(lib: Library, original: string, other: string, old_: Hasher, new_: Hasher, salt: nat)
    requires Lawful(lib) && Cuts(lib) && Sharp(lib, new_.algorithm) && Hashes(lib, old_) && Hashes(lib, new_)
    requires old_.algorithm.Bcrypt? && original != other && |original| >= 72 && |other| >= 72
    requires original[..72] == other[..72]
    requires lib.nfkc(original) == original && lib.nfkc(other) == other
    ensures !SafeLogin(lib, old_, new_, original, other, salt)
  {
    assert Input(old_, original)[..72] == original[..72] && Input(old_, other)[..72] == other[..72];
    hide Lawful, SafeLogin, Hashes;
    SharpSees(lib, new_, original, other);
    SharpSees(lib, new_, other, other);
    LoginIsLossy(lib, old_, new_, original, other, salt);
  }

  /** A library that hashes nothing, writes the secret in front and cuts what bcrypt gets: the laws can be
      met. */
  function Transparent(nfkc: string -> string): Library {
    Library(nfkc, View, (a, secret, input, salt) => Some(Tagged(secret, View(a, input).value)),
            (b, secret, hashed, other) => Some(hashed == Tagged(secret, View(b, other).value)))
  }

  function View(a: Algorithm, input: string): (r: Option<string>)
    ensures r.Some?
  {
    Some(if a.Bcrypt? && |input| > 72 then input[..72] else input)
  }

  function Tagged(secret: Option<string>, text: string): string {
    (if secret.Some? then "s" + Marked(secret.value) else "n") + text
  }

  /** Each character after a mark, and the end without one. */
  function Marked(s: string): string {
    if s == "" then "." else ['+', s[0]] + Marked(s[1..])
  }

  lemma {:induction false} MarkedInjective(s: string, t: string, x: string, y: string)
    ensures Marked(s) + x == Marked(t) + y <==> s == t && x == y
    decreases |s|
  {
    var a, b := Marked(s) + x, Marked(t) + y;
    if s == "" && t == "" {
      assert a[1..] == x && b[1..] == y;
    } else if s == "" || t == "" {
      assert a[0] != b[0];
    } else {
      assert a == ['+', s[0]] + (Marked(s[1..]) + x) && b == ['+', t[0]] + (Marked(t[1..]) + y);
      assert a[1] == s[0] && b[1] == t[0] && a[2..] == Marked(s[1..]) + x && b[2..] == Marked(t[1..]) + y;
      MarkedInjective(s[1..], t[1..], x, y);
      assert s == [s[0]] + s[1..] && t == [t[0]] + t[1..];
    }
  }

  lemma TaggedInjective(secret: Option<string>, secret': Option<string>, x: string, y: string)
    ensures Tagged(secret, x) == Tagged(secret', y) <==> secret == secret' && x == y
  {
    hide Marked;
    var a, b := Tagged(secret, x), Tagged(secret', y);
    if secret.Some? && secret'.Some? {
      MarkedInjective(secret.value, secret'.value, x, y);
      assert a[1..] == Marked(secret.value) + x && b[1..] == Marked(secret'.value) + y;
    } else if secret.None? && secret'.None? {
      assert a[1..] == x && b[1..] == y;
    } else {
      assert a[0] != b[0];
    }
  }

  lemma TransparentIsLawful(nfkc: string -> string, h: Hasher)
    ensures Lawful(Transparent(nfkc)) && Cuts(Transparent(nfkc)) && Hashes(Transparent(nfkc), h)
    ensures Sharp(Transparent(nfkc), Argon2id) && Sharp(Transparent(nfkc), Pbkdf2)
  {
    forall s: string, t: string | |s| >= 72 && |t| >= 72 && s[..72] == t[..72]
      ensures forall cost :: View(Bcrypt(cost), s) == View(Bcrypt(cost), t)
    {
      assert |s| == 72 ==> s[..72] == s;
      assert |t| == 72 ==> t[..72] == t;
    }
    TransparentVerifies(nfkc);
    assert Lawful(Transparent(nfkc));
  }

  lemma TransparentVerifies(nfkc: string -> string)
    ensures Lawful(Transparent(nfkc))
  {
    var lib := Transparent(nfkc);
    forall a, b, secret, secret', input, salt, other
      ensures LawfulAt(lib, a, b, secret, secret', input, salt, other)
    {
      TaggedInjective(secret, secret', View(a, input).value, View(b, other).value);
      hide Tagged;
    }
  }

  /** With it, from bcrypt to Argon2 with neither normalising. */
  lemma CutExample(x: string, salt: nat)
    requires |x| == 72
    ensures var old_, new_ := Hasher(Bcrypt(None), false, None), Hasher(Argon2id, false, None);
      !SafeLogin(Transparent(p => p), old_, new_, x + "1", x + "2", salt)
  {
    var lib := Transparent(p => p);
    var old_, new_ := Hasher(Bcrypt(None), false, None), Hasher(Argon2id, false, None);
    hide Lawful, Cuts, Sharp, Hashes, SafeLogin;
    TransparentIsLawful(lib.nfkc, old_);
    TransparentIsLawful(lib.nfkc, new_);
    assert (x + "1")[72] != (x + "2")[72];
    assert (x + "1")[..72] == (x + "2")[..72];
    CutUpgradeLocksOut(lib, x + "1", x + "2", old_, new_, salt);
  }
}
