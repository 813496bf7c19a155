/** Key derivation: PBKDF2 of section 5.2 of RFC 8018 over an opaque HMAC-SHA-256, and the two
    loops of the firmware that compute it. */
module Pbkdf2 {
  type Octet = bv8
  type Octets = seq<Octet>
  type Prf = (Octets, Octets) -> Octets

  const HASH_SIZE: nat := 32
  const SALT_SIZE: nat := 16
  const KEY_SIZE: nat := 32

  // ---- The standard ----

  ghost predicate IsPrf(prf: Prf) {
    forall key: Octets, message: Octets :: |prf(key, message)| == HASH_SIZE
  }

  /** Four octets that encode a 32-bit number, most significant octet first. */
  function Int(i: bv32): (octets: Octets)
    ensures |octets| == 4
  {
    [(i >> 24) as bv8, ((i >> 16) & 0xff) as bv8, ((i >> 8) & 0xff) as bv8, (i & 0xff) as bv8]
  }

  /** Every number can be read back from its octets. */
  lemma IntEncodes(i: bv32)
    ensures var o := Int(i);
            ((o[0] as bv32) << 24) | ((o[1] as bv32) << 16) | ((o[2] as bv32) << 8) | (o[3] as bv32) == i
  {
  }

  /** The block counter: a 32-bit number, raised once for every block. */
  function Counter(block: nat): bv32 {
    if block == 0 then 0 else Raised(Counter(block - 1))
  }

  function Raised(counter: bv32): bv32 {
    counter + 1
  }

  ghost function Xor(a: Octets, b: Octets): (c: Octets)
    requires |a| == |b|
    ensures |c| == |a| && forall k | 0 <= k < |a| :: c[k] == a[k] ^ b[k]
  {
    seq(|a|, k requires 0 <= k < |a| => a[k] ^ b[k])
  }

  /** U_j of block `i`. */
  ghost function U(prf: Prf, password: Octets, salt: Octets, i: nat, j: nat): (u: Octets)
    requires IsPrf(prf) && j >= 1
    ensures |u| == HASH_SIZE
  {
    if j == 1 then prf(password, salt + Int(Counter(i))) else prf(password, U(prf, password, salt, i, j - 1))
  }

  /** F(P, S, c, i) = U_1 xor U_2 xor ... xor U_c. */
  ghost function F(prf: Prf, password: Octets, salt: Octets, c: nat, i: nat): (t: Octets)
    requires IsPrf(prf) && c >= 1
    ensures |t| == HASH_SIZE
  {
    if c == 1 then U(prf, password, salt, i, 1)
    else Xor(F(prf, password, salt, c - 1, i), U(prf, password, salt, i, c))
  }

  /** T_1 || T_2 || ... || T_l. */
  ghost function Blocks(prf: Prf, password: Octets, salt: Octets, c: nat, l: nat): (t: Octets)
    requires IsPrf(prf) && c >= 1
    ensures |t| == l * HASH_SIZE
  {
    if l == 0 then [] else Blocks(prf, password, salt, c, l - 1) + F(prf, password, salt, c, l)
  }

  /** The number of blocks a derived key of `dkLen` octets takes. */
  function BlockCount(dkLen: nat): (l: nat)
    ensures (l - 1) * HASH_SIZE < dkLen <= l * HASH_SIZE || dkLen == l == 0
  {
    (dkLen + HASH_SIZE - 1) / HASH_SIZE
  }

  /** PBKDF2(P, S, c, dkLen). */
  ghost function Derived(prf: Prf, password: Octets, salt: Octets, c: nat, dkLen: nat): (key: Octets)
    requires IsPrf(prf) && c >= 1
    ensures |key| == dkLen
  {
    Blocks(prf, password, salt, c, BlockCount(dkLen))[..dkLen]
  }

  lemma {:induction false} MoreBlocksSamePrefix(prf: Prf, password: Octets, salt: Octets, c: nat, l: nat, more: nat)
    requires IsPrf(prf) && c >= 1 && l <= more
    ensures l * HASH_SIZE <= more * HASH_SIZE
    ensures Blocks(prf, password, salt, c, more)[..l * HASH_SIZE] == Blocks(prf, password, salt, c, l)
  {
    if l < more {
      MoreBlocksSamePrefix(prf, password, salt, c, l, more - 1);
      var all, fewer := Blocks(prf, password, salt, c, more), Blocks(prf, password, salt, c, more - 1);
      assert all[..l * HASH_SIZE] == fewer[..l * HASH_SIZE];
    }
  }

  /** A shorter key is a prefix of a longer one derived from the same inputs. */
  lemma ShorterKeyIsPrefix(prf: Prf, password: Octets, salt: Octets, c: nat, dkLen: nat, longer: nat)
    requires IsPrf(prf) && c >= 1 && dkLen <= longer
    ensures Derived(prf, password, salt, c, dkLen) == Derived(prf, password, salt, c, longer)[..dkLen]
  {
    var l, more := BlockCount(dkLen), BlockCount(longer);
    assert l <= more;
    MoreBlocksSamePrefix(prf, password, salt, c, l, more);
    assert Blocks(prf, password, salt, c, more)[..l * HASH_SIZE][..dkLen]
             == Blocks(prf, password, salt, c, more)[..dkLen];
  }

  // ---- The hash library, which may fail ----

  class HashLibrary {
    const prf: Prf
    /** No call has failed so far. */
    ghost var healthy: bool

    constructor (prf: Prf)
      ensures this.prf == prf && healthy
    {
      this.prf, healthy := prf, true;
    }

    method Answer() returns (result: int)
      modifies this
      ensures healthy == (old(healthy) && result == 0)
    {
      result := *;
      healthy := healthy && result == 0;
    }

    method Hmac(key: Octets, message: Octets, output: array<Octet>) returns (result: int)
      requires IsPrf(prf) && output.Length == HASH_SIZE
      modifies this, output
      ensures healthy == (old(healthy) && result == 0)
      ensures result == 0 ==> output[..] == prf(key, message)
    {
      result := Answer();
      if result != 0 { return; }
      var digest := prf(key, message);
      forall k | 0 <= k < HASH_SIZE {
        output[k] := digest[k];
      }
      assert output[..] == digest;
    }
  }

  /** An incremental HMAC computation. */
  class MdContext {
    const hash: HashLibrary
    var key: Octets
    var message: Octets

    constructor (hash: HashLibrary)
      ensures this.hash == hash
    {
      this.hash, key, message := hash, [], [];
    }

    method Starts(key: Octets) returns (result: int)
      modifies this, hash
      ensures hash.healthy == (old(hash.healthy) && result == 0)
      ensures result == 0 ==> this.key == key && message == []
    {
      this.key, message := key, [];
      result := hash.Answer();
    }

    method Update(data: Octets) returns (result: int)
      modifies this, hash
      ensures hash.healthy == (old(hash.healthy) && result == 0)
      ensures result == 0 ==> key == old(key) && message == old(message) + data
    {
      message := message + data;
      result := hash.Answer();
    }

    method Finish(output: array<Octet>) returns (result: int)
      requires IsPrf(hash.prf) && output.Length == HASH_SIZE
      modifies hash, output
      ensures hash.healthy == (old(hash.healthy) && result == 0)
      ensures result == 0 ==> output[..] == hash.prf(key, message)
    {
      result := hash.Hmac(key, message, output);
    }

    method Reset() returns (result: int)
      modifies this, hash
      ensures hash.healthy == (old(hash.healthy) && result == 0)
      ensures result == 0 ==> key == old(key) && message == []
    {
      message := [];
      result := hash.Answer();
    }
  }

  method XorInto(target: array<Octet>, source: array<Octet>)
    requires target.Length == source.Length && target != source
    modifies target
    ensures target[..] == Xor(old(target[..]), source[..])
  {
    for index := 0 to target.Length
      invariant forall k | 0 <= k < index :: target[k] == old(target[k]) ^ source[k]
      invariant forall k | index <= k < target.Length :: target[k] == old(target[k])
    {
      target[index] := target[index] ^ source[index];
    }
  }

  // ---- Administrator passwords ----

  /** One output block: `rounds` HMAC calls folded into `accumulated`. */
  method DeriveBlock(hash: HashLibrary, password: Octets, saltBlock: Octets, iterations: nat, ghost salt: Octets,
      ghost block: nat, accumulated: array<Octet>)
    returns (result: int)
    requires IsPrf(hash.prf) && iterations >= 1 && accumulated.Length == HASH_SIZE
    requires saltBlock == salt + Int(Counter(block))
    modifies hash, accumulated
    ensures hash.healthy == (old(hash.healthy) && result == 0)
    ensures result == 0 ==> accumulated[..] == F(hash.prf, password, salt, iterations, block)
  {
    hide Xor, IsPrf;
    var previous, current := new Octet[HASH_SIZE], new Octet[HASH_SIZE];
    result := hash.Hmac(password, saltBlock, previous);
    if result != 0 { return; }
    forall k | 0 <= k < HASH_SIZE {
      accumulated[k] := previous[k];
    }
    assert accumulated[..] == previous[..];
    var round := 1;
    while round < iterations
      invariant 1 <= round <= iterations
      invariant fresh(previous) && fresh(current) && previous != current
      invariant previous.Length == current.Length == HASH_SIZE
      invariant previous[..] == U(hash.prf, password, salt, block, round)
      invariant accumulated[..] == F(hash.prf, password, salt, round, block)
      invariant hash.healthy == old(hash.healthy)
    {
      result := hash.Hmac(password, previous[..], current);
      if result != 0 { return; }
      XorInto(accumulated, current);
      previous, current := current, previous;
      round := round + 1;
    }
    result := 0;
  }

  method SaltBlock(salt: Octets, counter: bv32) returns (saltBlock: Octets)
    ensures saltBlock == salt + Int(counter)
  {
    saltBlock := salt + [(counter >> 24) as bv8, ((counter >> 16) & 0xff) as bv8, ((counter >> 8) & 0xff) as bv8,
                         (counter & 0xff) as bv8];
  }

  /** Computes the derived key for every iteration count of at least one and every output length
      the platform can address; no iterations, or a failing hash, is an error. */
  method DerivePbkdf2(hash: HashLibrary, password: Octets, salt: Octets, iterations: nat, output: array<Octet>)
    returns (result: int)
    requires IsPrf(hash.prf) && output.Length < 0x1_0000_0000
    modifies hash, output
    ensures iterations == 0 ==> result == -1 && output[..] == old(output[..]) && hash.healthy == old(hash.healthy)
    ensures iterations >= 1 ==> hash.healthy == (old(hash.healthy) && result == 0)
    ensures result == 0 ==>
              iterations >= 1 && output[..] == Derived(hash.prf, password, salt, iterations, output.Length)
  {
    hide IsPrf, F, Blocks, Derived, Int, Raised, Xor;
    if iterations == 0 { return -1; }
    var accumulated := new Octet[HASH_SIZE];
    var written := 0;
    var counter := FirstCounter();
    ghost var block := 1;
    while written < output.Length
      invariant written == if (block - 1) * HASH_SIZE < output.Length then (block - 1) * HASH_SIZE else output.Length
      invariant 1 <= block && written <= output.Length && counter == Counter(block)
      decreases output.Length - written
      invariant block > 1 ==> (block - 2) * HASH_SIZE < output.Length
      invariant output[..written] == Blocks(hash.prf, password, salt, iterations, block - 1)[..written]
      invariant hash.healthy == old(hash.healthy)
    {
      var saltBlock := SaltBlock(salt, counter);
      result := DeriveBlock(hash, password, saltBlock, iterations, salt, block, accumulated);
      if result != 0 { return; }
      var count := StoreBlock(output, written, accumulated);
      AppendBlock(hash.prf, password, salt, iterations, block, count);
      written, counter, block := written + count, Raised(counter), block + 1;
    }
    assert output[..] == output[..written];
    WholeKey(hash.prf, password, salt, iterations, output.Length, block - 1);
    result := 0;
  }

  function FirstCounter(): (counter: bv32)
    ensures counter == Counter(1)
  {
    1
  }

  method StoreBlock(output: array<Octet>, written: nat, block: array<Octet>) returns (count: nat)
    requires output != block && block.Length == HASH_SIZE && written < output.Length
    modifies output
    ensures count == if HASH_SIZE < output.Length - written then HASH_SIZE else output.Length - written
    ensures output[..written + count] == old(output[..written]) + block[..][..count]
  {
    count := if HASH_SIZE < output.Length - written then HASH_SIZE else output.Length - written;
    forall k | 0 <= k < count {
      output[written + k] := block[k];
    }
  }

  lemma AppendBlock(prf: Prf, password: Octets, salt: Octets, c: nat, l: nat, count: nat)
    requires IsPrf(prf) && c >= 1 && l >= 1 && count <= HASH_SIZE
    ensures Blocks(prf, password, salt, c, l - 1) + F(prf, password, salt, c, l)[..count]
            == Blocks(prf, password, salt, c, l)[..(l - 1) * HASH_SIZE + count]
  {
  }

  lemma WholeKey(prf: Prf, password: Octets, salt: Octets, c: nat, dkLen: nat, l: nat)
    requires IsPrf(prf) && c >= 1
    requires dkLen <= l * HASH_SIZE && (l > 0 ==> (l - 1) * HASH_SIZE < dkLen)
    ensures Blocks(prf, password, salt, c, l)[..dkLen] == Derived(prf, password, salt, c, dkLen)
  {
    assert l == BlockCount(dkLen);
  }

  datatype AdminConfig = AdminConfig(salt: Octets, passwordVerifier: Octets, pbkdf2Iterations: nat)

  const PASSWORD_ITERATIONS: nat := 60000

  /** The stored verifier is the one the password derives. */
  ghost predicate Accepts(prf: Prf, password: Octets, admin: AdminConfig)
    requires IsPrf(prf)
  {
    && password != [] && admin.salt != [] && admin.passwordVerifier != [] && admin.pbkdf2Iterations >= 50000
    && admin.passwordVerifier == Derived(prf, password, admin.salt, admin.pbkdf2Iterations, |admin.passwordVerifier|)
  }

  /** `random` is what the random number generator supplies. */
  method DeriveAdminPassword(hash: HashLibrary, password: Octets, random: Octets, admin: AdminConfig)
    returns (status: KeyStatus, derived: AdminConfig)
    requires IsPrf(hash.prf) && |random| == SALT_SIZE
    modifies hash
    ensures status.InvalidArg? <==> |password| < 10 || |password| > 128
    ensures hash.healthy == (old(hash.healthy) && !status.Failed?)
    ensures status.Ok? ==> Accepts(hash.prf, password, derived) && derived.salt == random
                           && |derived.passwordVerifier| == HASH_SIZE && derived.pbkdf2Iterations == PASSWORD_ITERATIONS
    ensures !status.Ok? ==> derived == admin
  {
    hide Derived;
    if |password| < 10 || |password| > 128 { return InvalidArg, admin; }
    var verifier := new Octet[HASH_SIZE];
    var result := DerivePbkdf2(hash, password, random, PASSWORD_ITERATIONS, verifier);
    if result != 0 { return Failed, admin; }
    return Ok, AdminConfig(random, verifier[..], PASSWORD_ITERATIONS);
  }

  /** Accumulating differences with `|` loses none. */
  lemma NoDifference(difference: Octet, a: Octet, b: Octet)
    ensures difference | (a ^ b) == 0 <==> difference == 0 && a == b
  {
  }

  /** Every octet is compared, and the password is accepted exactly when all agree, unless the hash
      fails meanwhile. */
  method VerifyAdminPassword(hash: HashLibrary, password: Octets, admin: AdminConfig) returns (accepted: bool)
    requires IsPrf(hash.prf) && |admin.passwordVerifier| < 0x1_0000_0000
    modifies hash
    ensures hash.healthy ==> old(hash.healthy) && (accepted <==> Accepts(hash.prf, password, admin))
    ensures accepted ==> Accepts(hash.prf, password, admin) && hash.healthy == old(hash.healthy)
  {
    hide Derived;
    if password == [] || admin.salt == [] || admin.passwordVerifier == [] || admin.pbkdf2Iterations < 50000 {
      return false;
    }
    var candidate := new Octet[|admin.passwordVerifier|];
    var result := DerivePbkdf2(hash, password, admin.salt, admin.pbkdf2Iterations, candidate);
    if result != 0 { return false; }
    ghost var bytes := candidate[..];
    var difference: Octet := 0;
    for index := 0 to candidate.Length
      invariant candidate[..] == bytes && hash.healthy == old(hash.healthy)
      invariant difference == 0 <==> candidate[..index] == admin.passwordVerifier[..index]
    {
      NoDifference(difference, candidate[index], admin.passwordVerifier[index]);
      assert candidate[..index + 1] == candidate[..index] + [candidate[index]];
      assert admin.passwordVerifier[..index + 1] == admin.passwordVerifier[..index] + [admin.passwordVerifier[index]];
      difference := difference | (candidate[index] ^ admin.passwordVerifier[index]);
    }
    assert candidate[..] == candidate[..candidate.Length]
        && admin.passwordVerifier == admin.passwordVerifier[..candidate.Length];
    accepted := difference == 0;
  }

  // ---- Backup keys ----

  datatype KeyStatus = Ok | InvalidArg | Failed

  /** The backup's own single-block loop yields the same function for its 32-byte key, within the
      limits it sets, and a cleared key when the hash fails. */
  method DeriveKey(hash: HashLibrary, password: Octets, salt: Octets, iterations: nat,
      key: array<Octet>) returns (status: KeyStatus)
    requires IsPrf(hash.prf) && |salt| == SALT_SIZE && key.Length == KEY_SIZE
    modifies hash, key
    ensures hash.healthy == (old(hash.healthy) && !status.Failed?)
    ensures status.InvalidArg? <==> |password| < 10 || |password| > 128 || iterations < 50000 || iterations > 1000000
    ensures status.InvalidArg? ==> key[..] == old(key[..])
    ensures status.Ok? ==> key[..] == Derived(hash.prf, password, salt, iterations, KEY_SIZE)
    ensures status.Failed? ==> forall k | 0 <= k < KEY_SIZE :: key[k] == 0
  {
    if |password| < 10 || |password| > 128 || iterations < 50000 || iterations > 1000000 { return InvalidArg; }
    hide Xor, IsPrf, Derived, Int;
    var context := new MdContext(hash);
    var u := new Octet[KEY_SIZE];
    var result := FirstRound(context, password, salt, u);
    if result == 0 {
      forall k | 0 <= k < KEY_SIZE {
        key[k] := u[k];
      }
      assert key[..] == u[..];
    }
    var iteration := 1;
    while result == 0 && iteration < iterations
      invariant 1 <= iteration <= iterations
      invariant result == 0 ==> context.key == password
      invariant hash.healthy == (old(hash.healthy) && result == 0)
      invariant result == 0 ==> u[..] == U(hash.prf, password, salt, 1, iteration)
      invariant result == 0 ==> key[..] == F(hash.prf, password, salt, iteration, 1)
    {
      result := NextRound(context, u);
      if result == 0 { XorInto(key, u); }
      iteration := iteration + 1;
    }
    if result != 0 {
      forall k | 0 <= k < KEY_SIZE {
        key[k] := 0;
      }
      return Failed;
    }
    SingleBlock(hash.prf, password, salt, iterations);
    return Ok;
  }

  method FirstRound(context: MdContext, password: Octets, salt: Octets, u: array<Octet>) returns (result: int)
    requires IsPrf(context.hash.prf) && u.Length == KEY_SIZE
    modifies context, context.hash, u
    ensures context.hash.healthy == (old(context.hash.healthy) && result == 0)
    ensures result == 0 ==> context.key == password && u[..] == context.hash.prf(password, salt + Int(Counter(1)))
  {
    result := context.Starts(password);
    if result == 0 { result := context.Update(salt); }
    if result == 0 { result := context.Update([0, 0, 0, 1]); }
    assert Int(Counter(1)) == [0, 0, 0, 1];
    assert result == 0 ==> context.message == salt + Int(Counter(1));
    if result == 0 { result := context.Finish(u); }
  }

  method NextRound(context: MdContext, u: array<Octet>) returns (result: int)
    requires IsPrf(context.hash.prf) && u.Length == KEY_SIZE
    modifies context, context.hash, u
    ensures context.hash.healthy == (old(context.hash.healthy) && result == 0)
    ensures result == 0 ==> context.key == old(context.key) && u[..] == context.hash.prf(context.key, old(u[..]))
  {
    result := context.Reset();
    if result == 0 { result := context.Update(u[..]); }
    if result == 0 {
      assert context.message == u[..];
      result := context.Finish(u);
    }
  }

  /** A key of one hash length is the first block. */
  lemma SingleBlock(prf: Prf, password: Octets, salt: Octets, c: nat)
    requires IsPrf(prf) && c >= 1
    ensures Derived(prf, password, salt, c, HASH_SIZE) == F(prf, password, salt, c, 1)
  {
    var blocks := Blocks(prf, password, salt, c, 1);
    assert Blocks(prf, password, salt, c, 0) == [];
    assert blocks == F(prf, password, salt, c, 1);
    assert blocks[..HASH_SIZE] == blocks;
  }
}
