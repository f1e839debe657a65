/** The authorization-key handshake of AuthKeyGenerator.cs: a fixed chain of states, each
    sending one request or consuming one answer, that factors the server's pq, agrees on
    a Diffie-Hellman key and derives the server salt. SHA-1, RSA, the random number
    generator, the AES block function and the TL encodings of the inner messages are
    parameters (an `Env`); the answers arrive already decoded. */
module AuthKey {
  import opened Wrappers
  import opened Bytes
  import AesIge

  // ---- The state machine ----

  datatype AuthState = ReqPQ | ResPQ | ReqDH | ResDH | SetDH | DHGenCheck | End

  /** `stateMap`: each state's successor; End has none. */
  const STATE_MAP: map<AuthState, AuthState> := map[
    ReqPQ := ResPQ, ResPQ := ReqDH, ReqDH := ResDH, ResDH := SetDH, SetDH := DHGenCheck, DHGenCheck := End]

  /** The states GetKey processes, in order. */
  const HANDSHAKE: seq<AuthState> := [ReqPQ, ResPQ, ReqDH, ResDH, SetDH, DHGenCheck]

  /** How far along the handshake a state is. */
  function Ordinal(s: AuthState): nat
  {
    match s
    case ReqPQ => 0
    case ResPQ => 1
    case ReqDH => 2
    case ResDH => 3
    case SetDH => 4
    case DHGenCheck => 5
    case End => 6
  }

  /** `next`: the dictionary lookup, which throws KeyNotFoundException at End. Every
      other state steps one place further along the handshake. */
  function Next(s: AuthState): (r: Result<AuthState>)
    ensures r.Ok? <==> s != End
    ensures r.Err? ==> r.error == KeyNotFound
    ensures r.Ok? ==> Ordinal(r.value) == Ordinal(s) + 1
  {
    MapDomain(s);
    if s in STATE_MAP then Ok(STATE_MAP[s]) else Err(KeyNotFound)
  }

  lemma MapDomain(s: AuthState)
    ensures s in STATE_MAP <==> s != End
  {
    match s
    case End =>
    case _ => assert s in STATE_MAP.Keys;
  }

  /** The chain of `next` from ReqPQ lists the handshake in order and ends at End. */
  lemma NextChain()
    ensures forall i :: 0 <= i < |HANDSHAKE| - 1 ==> Next(HANDSHAKE[i]) == Ok(HANDSHAKE[i + 1])
    ensures Next(HANDSHAKE[|HANDSHAKE| - 1]) == Ok(End)
    ensures forall i :: 0 <= i < |HANDSHAKE| ==> Ordinal(HANDSHAKE[i]) == i
  {
    forall i | 0 <= i < |HANDSHAKE| - 1 ensures Next(HANDSHAKE[i]) == Ok(HANDSHAKE[i + 1]) {
      assert HANDSHAKE[i] in STATE_MAP;
    }
  }

  // ---- Arithmetic on BigInteger ----

  function Abs(x: int): nat
  {
    if x < 0 then -x else x
  }

  /** BigInteger.GreatestCommonDivisor of two absolute values (Euclid's algorithm). */
  function Gcd(a: nat, b: nat): nat
    decreases b
  {
    if b == 0 then a else Gcd(b, a % b)
  }

  /** Division and remainder are determined by any quotient and remainder in range. */
  lemma DivModUnique(a: int, g: int, q: int, r: int)
    requires g > 0 && a == q * g + r && 0 <= r < g
    ensures a / g == q && a % g == r
  {
    var q', r' := a / g, a % g;
    assert a == q' * g + r';
    assert (q - q') * g == r' - r;
    if q > q' {
      MulAtLeast(q - q', g);
    } else if q < q' {
      MulAtLeast(q' - q, g);
    }
  }

  lemma MulAtLeast(m: int, g: int)
    requires m >= 1 && g > 0
    ensures m * g >= g
  {
    assert m * g == (m - 1) * g + g;
  }

  lemma MultipleMod(k: int, g: int)
    requires g > 0
    ensures (k * g) % g == 0 && (k * g) / g == k
  {
    DivModUnique(k * g, g, k, 0);
  }

  /** A common divisor of `b` and `a % b` divides `a`. */
  lemma DividesFromRemainder(a: nat, b: nat, g: nat)
    requires g > 0 && b > 0 && b % g == 0 && (a % b) % g == 0
    ensures a % g == 0
  {
    var kb := b / g;
    var km := (a % b) / g;
    var q := a / b;
    assert a == q * b + a % b;
    assert b == kb * g && a % b == km * g;
    assert a == (q * kb + km) * g by {
      assert q * b == q * kb * g;
    }
    MultipleMod(q * kb + km, g);
  }

  /** The gcd is a positive common divisor unless both arguments are zero. */
  lemma {:induction false} GcdDivides(a: nat, b: nat)
    requires a > 0 || b > 0
    ensures Gcd(a, b) > 0 && a % Gcd(a, b) == 0 && b % Gcd(a, b) == 0
    decreases b
  {
    if b > 0 {
      if a % b == 0 {
        assert Gcd(b, a % b) == Gcd(b, 0) == b;
        assert b % b == 0;
      } else {
        GcdDivides(b, a % b);
      }
      DividesFromRemainder(a, b, Gcd(a, b));
    } else {
      assert a % a == 0;
    }
  }

  /** A divisor of |n| divides n. */
  lemma DividesSigned(n: int, d: nat)
    requires d > 0 && Abs(n) % d == 0
    ensures n % d == 0
  {
    var k := Abs(n) / d;
    assert Abs(n) == k * d;
    if n < 0 {
      assert n == (-k) * d;
    }
    MultipleMod(if n < 0 then -k else k, d);
  }

  /** `gX`: x² + 1 reduced modulo n. BigInteger.Remainder takes the sign of the
      dividend, which is positive here, so it is the non-negative remainder. */
  function Gx(x: int, n: int): (r: int)
    requires n != 0
    ensures 0 <= r < Abs(n)
  {
    (x * x + 1) % n
  }

  /** Pollard's rho from the point (x, y), for at most `fuel` rounds: the first gcd other
      than 1 is the answer unless it is n itself. The source loops for as long as the
      gcd stays 1; running out of fuel stands for that. */
  function RhoFrom(n: int, x: int, y: int, fuel: nat): (r: Result<int>)
    requires n != 0
    ensures r.Err? ==> r.error == RhoFailure || r.error == Diverges
    decreases fuel
  {
    if fuel == 0 then Err(Diverges)
    else
      var x' := Gx(x, n);
      var y' := Gx(Gx(y, n), n);
      var d := Gcd(Abs(x' - y'), Abs(n));
      if d == 1 then RhoFrom(n, x', y', fuel - 1)
      else if d == n then Err(RhoFailure)
      else Ok(d)
  }

  /** `rhoPollard(n)`, started at x = y = 2; a zero n fails in the first remainder. */
  function Rho(n: int, fuel: nat): (r: Result<int>)
    ensures r.Ok? ==> r.value > 1 && n % r.value == 0 && r.value != n
  {
    if n == 0 then Err(DivideByZero)
    else
      RhoDivisor(n, 2, 2, fuel);
      RhoFrom(n, 2, 2, fuel)
  }

  /** Whatever rho returns is a divisor of n other than 1 and n. */
  lemma {:induction false} RhoDivisor(n: int, x: int, y: int, fuel: nat)
    requires n != 0
    ensures var r := RhoFrom(n, x, y, fuel);
      r.Ok? ==> r.value > 1 && n % r.value == 0 && r.value != n
    decreases fuel
  {
    if fuel > 0 {
      var x' := Gx(x, n);
      var y' := Gx(Gx(y, n), n);
      var d := Gcd(Abs(x' - y'), Abs(n));
      if d == 1 {
        RhoDivisor(n, x', y', fuel - 1);
      } else {
        GcdDivides(Abs(x' - y'), Abs(n));
        DividesSigned(n, d);
      }
    }
  }

  /** rhoPollard's loop: x, y and d updated until d is no longer 1. */
  method RhoPollard(n: int, fuel: nat) returns (r: Result<int>)
    ensures r == Rho(n, fuel)
    ensures r.Ok? ==> r.value > 1 && n % r.value == 0 && r.value != n
    ensures r.Err? ==> r.error == DivideByZero || r.error == RhoFailure || r.error == Diverges
  {
    if n == 0 {
      return Err(DivideByZero);
    }
    var x, y, d := 2, 2, 1;
    var left := fuel;
    while d == 1
      invariant d == 1 ==> RhoFrom(n, x, y, left) == Rho(n, fuel)
      invariant d != 1 ==> Rho(n, fuel) == (if d == n then Err(RhoFailure) else Ok(d))
      decreases left
    {
      if left == 0 {
        return Err(Diverges);
      }
      x := Gx(x, n);
      y := Gx(Gx(y, n), n);
      d := Gcd(Abs(x - y), Abs(n));
      left := left - 1;
    }
    if d == n {
      return Err(RhoFailure);
    }
    r := Ok(d);
  }

  /** BigInteger division, which truncates toward zero. */
  function Quot(a: int, b: int): int
    requires b != 0
  {
    if (a >= 0) == (b > 0) then Abs(a) / Abs(b) else -(Abs(a) / Abs(b))
  }

  /** The factor ordering of ReqDH: the smaller of `d` and `pq / d` first. */
  function OrderFactors(pq: int, d: int): (r: (int, int))
    requires d != 0
    ensures r.0 <= r.1
    ensures (r.0 == d && r.1 == Quot(pq, d)) || (r.0 == Quot(pq, d) && r.1 == d)
  {
    var other := Quot(pq, d);
    if d < other then (d, other) else (other, d)
  }

  /** For a divisor found by rho the ordered factors multiply back to pq. */
  lemma FactorsOfPQ(pq: int, d: int)
    requires d > 1 && pq % d == 0
    ensures OrderFactors(pq, d).0 * OrderFactors(pq, d).1 == pq
  {
    var k := pq / d;
    assert pq == k * d;
    if pq >= 0 {
      assert k >= 0;
      assert Abs(pq) / d == k by { MultipleMod(k, d); }
    } else {
      assert k < 0;
      assert Abs(pq) == (-k) * d;
      assert Abs(pq) / d == -k by { MultipleMod(-k, d); }
    }
    assert Quot(pq, d) == k;
  }

  /** `ModPow(b, e, m)` as BigInteger computes it: a zero modulus throws, and the result
      has the sign of the power (the remainder truncates). */
  function ModPow(b: int, e: nat, m: int): (r: Result<int>)
    ensures r.Err? <==> m == 0
    ensures r.Err? ==> r.error == DivideByZero
    ensures r.Ok? && b >= 0 ==> 0 <= r.value < Abs(m)
  {
    if m == 0 then Err(DivideByZero)
    else
      var p := Pow(b, e);
      Ok(if p >= 0 then p % Abs(m) else -((-p) % Abs(m)))
  }

  function Pow(b: int, e: nat): (r: int)
    ensures b >= 0 ==> r >= 0
  {
    if e == 0 then 1 else b * Pow(b, e - 1)
  }

  // ---- Diffie-Hellman ----

  /** A product's remainder depends only on its factors' remainders. */
  lemma MulMod(a: nat, b: nat, m: int)
    requires m > 0
    ensures (a * b) % m == ((a % m) * (b % m)) % m
  {
    var qa, ra := a / m, a % m;
    var qb, rb := b / m, b % m;
    var k := qa * qb * m + qa * rb + ra * qb;
    assert a * b == k * m + ra * rb by {
      assert a * b == (qa * m + ra) * (qb * m + rb);
    }
    var q2, r2 := (ra * rb) / m, (ra * rb) % m;
    assert ra * rb == q2 * m + r2;
    DivModUnique(a * b, m, k + q2, r2);
  }

  /** Reducing the base first does not change a power's remainder. */
  lemma {:induction false} PowMod(x: nat, e: nat, m: int)
    requires m > 0
    ensures Pow(x % m, e) % m == Pow(x, e) % m
  {
    if e > 0 {
      var a := x % m;
      PowMod(x, e - 1, m);
      DivModUnique(a, m, 0, a);
      MulMod(a, Pow(a, e - 1), m);
      MulMod(x, Pow(x, e - 1), m);
    }
  }

  lemma {:induction false} PowAdd(g: int, a: nat, c: nat)
    ensures Pow(g, a + c) == Pow(g, a) * Pow(g, c)
    decreases a
  {
    if a > 0 {
      PowAdd(g, a - 1, c);
      assert Pow(g, a + c) == g * Pow(g, a - 1 + c);
    }
  }

  lemma {:induction false} PowMul(g: int, a: nat, b: nat)
    ensures Pow(Pow(g, a), b) == Pow(g, a * b)
  {
    if b > 0 {
      PowMul(g, a, b - 1);
      PowAdd(g, a, a * (b - 1));
      assert a + a * (b - 1) == a * b;
    }
  }

  /** Diffie-Hellman agreement: (g^a mod m)^b mod m and (g^b mod m)^a mod m are the same
      value, g^(ab) mod m. */
  lemma DHAgreement(g: nat, a: nat, b: nat, m: int)
    requires m > 0
    ensures ModPow(ModPow(g, a, m).value, b, m) == ModPow(ModPow(g, b, m).value, a, m)
    ensures ModPow(ModPow(g, a, m).value, b, m) == Ok(Pow(g, a * b) % m)
  {
    PowMod(Pow(g, a), b, m);
    PowMul(g, a, b);
    PowMod(Pow(g, b), a, m);
    PowMul(g, b, a);
    assert a * b == b * a;
  }

  /** `ToByteArray(isUnsigned: true, isBigEndian: true)`: a negative value overflows. */
  function UnsignedBE(n: int): (r: Result<seq<byte>>)
    ensures r.Ok? <==> n >= 0
    ensures r.Err? ==> r.error == OverflowError
    ensures r.Ok? ==> FromBE(r.value) == n && |r.value| >= 1
  {
    if n < 0 then Err(OverflowError)
    else
      FromBEOfToBE(n);
      Ok(ToBE(n))
  }

  // ---- Padding ----

  /** The length of a SHA-1 digest. */
  const SHA1_SIZE: nat := 20

  /** The random padding after SHA1(inner) ‖ inner in ReqDH: from 1 to 255 bytes, bringing
      the RSA plaintext to a multiple of 255. */
  function RsaPadLength(innerLength: nat): (r: nat)
    ensures 1 <= r <= 255
    ensures (SHA1_SIZE + innerLength + r) % 255 == 0
  {
    255 - (innerLength + SHA1_SIZE) % 255
  }

  /** The random padding in SetDH: from 0 to 15 bytes, bringing the written length to a
      multiple of 16. */
  function AlignLength(position: nat): (r: nat)
    ensures r <= 15
    ensures (position + r) % 16 == 0
  {
    (16 - position % 16) % 16
  }

  // ---- Nonces, temporary AES key and IV, salt ----

  type Nonce16 = s: seq<byte> | |s| == 16 witness seq(16, _ => 0)
  type Nonce32 = s: seq<byte> | |s| == 32 witness seq(32, _ => 0)
  type Digest = s: seq<byte> | |s| == 20 witness seq(20, _ => 0)

  /** SHA1.HashData. */
  type Sha1 = seq<byte> -> Digest

  /** CalculateTmpAesKey: SHA1(new_nonce ‖ server_nonce) and the first 12 bytes of
      SHA1(server_nonce ‖ new_nonce). */
  function TmpAesKey(sha1: Sha1, newNonce: Nonce32, nonceServer: seq<byte>): (r: seq<byte>)
    ensures |r| == 32
  {
    sha1(newNonce + nonceServer) + sha1(nonceServer + newNonce)[..12]
  }

  /** CalculateTmpAesIV: the last 8 bytes of SHA1(server_nonce ‖ new_nonce), then
      SHA1(new_nonce ‖ new_nonce), then the first 4 bytes of new_nonce. */
  function TmpAesIV(sha1: Sha1, newNonce: Nonce32, nonceServer: seq<byte>): (r: seq<byte>)
    ensures |r| == 32
  {
    sha1(nonceServer + newNonce)[12..] + sha1(newNonce + newNonce) + newNonce[..4]
  }

  /** The key is 32 bytes, and the IV's halves are the two 16-byte blocks AES-IGE chains
      from, so the temporary IV is accepted for any input of a whole block. */
  lemma TmpIVFitsIge(sha1: Sha1, newNonce: Nonce32, nonceServer: seq<byte>, src: seq<byte>, f: AesIge.Transform)
    ensures |TmpAesKey(sha1, newNonce, nonceServer)| == 32
    ensures AesIge.Encrypt(src, TmpAesIV(sha1, newNonce, nonceServer), f).Ok? <==> |src| >= 16
    ensures AesIge.Decrypt(src, TmpAesIV(sha1, newNonce, nonceServer), f).Ok? <==> |src| >= 16
  {
  }

  /** The server salt of dh_gen_ok: new_nonce[0..8] xor server_nonce[0..8], read as a
      little-endian long; a server nonce shorter than 8 bytes is out of range. */
  function ServerSalt(newNonce: Nonce32, nonceServer: seq<byte>): (r: Result<int64>)
    ensures r.Ok? <==> |nonceServer| >= 8
    ensures r.Err? ==> r.error == OutOfRange
    ensures r.Ok? ==> EncodeI64(r.value) == XorSeq(newNonce[..8], nonceServer[..8])
  {
    if |nonceServer| < 8 then Err(OutOfRange)
    else
      var mixed := XorSeq(newNonce[..8], nonceServer[..8]);
      I64BytesRoundTrip(mixed);
      Ok(DecodeI64(mixed))
  }

  // ---- RSA key selection ----

  /** An entry of `PublicKeys.Keys`: its fingerprint and the key RSA encrypts with. */
  datatype RsaKey = RsaKey(fingerprint: int64, modulus: nat, exponent: nat)

  /** FirstOrDefault over the known keys: the index of the first key whose fingerprint
      the server offered, or the number of keys when none is. */
  function FirstMatch(keys: seq<RsaKey>, tokens: seq<int64>): (r: nat)
    ensures r <= |keys|
    ensures r < |keys| ==> keys[r].fingerprint in tokens
    ensures forall j :: 0 <= j < r ==> keys[j].fingerprint !in tokens
  {
    if keys == [] then 0
    else if keys[0].fingerprint in tokens then 0
    else 1 + FirstMatch(keys[1..], tokens)
  }

  // ---- Messages ----

  /** p_q_inner_data: what ReqDH encrypts with the server's RSA key. */
  datatype PQInner = PQInner(pq: seq<byte>, p: int, q: int, nonce: Nonce16, serverNonce: seq<byte>, newNonce: Nonce32)

  /** client_DH_inner_data: what SetDH encrypts with the temporary AES key. */
  datatype ClientDHInner = ClientDHInner(nonce: Nonce16, serverNonce: seq<byte>, gb: seq<byte>, retryId: int64)

  /** server_DH_inner_data: what the server's DH parameters decrypt to. */
  datatype ServerDHInner = ServerDHInner(dhPrime: seq<byte>, ga: seq<byte>, g: int32)

  /** The requests the handshake queues on the connection pool. */
  datatype Request =
    | ReqPqMulti(nonce: Nonce16)
    | ReqDHParams(nonce: Nonce16, serverNonce: seq<byte>, p: int, q: int, fingerprint: int64, encryptedData: seq<byte>)
    | SetClientDHParams(nonce: Nonce16, serverNonce: seq<byte>, encryptedData: seq<byte>)

  /** The answers ReadSingle hands the handshake, decoded. */
  datatype Answer =
    | ResPQAnswer(serverNonce: seq<byte>, pq: seq<byte>, fingerprints: seq<int64>)
    | ServerDHParamsOk(encryptedAnswer: seq<byte>)
    | ServerDHParamsFail
    | DHGenOk
    | DHGenRetry
    | DHGenFail

  /** What the handshake calls but does not define: SHA-1, the random number generator
      (the byte it yields at each position of its output), the RSA keys and encryption,
      the TL encoding and decoding of the inner messages, the AES block functions made
      from a key, and how many rounds Pollard's rho may take. */
  datatype Env = Env(
    sha1: Sha1,
    random: nat -> byte,
    keys: seq<RsaKey>,
    rsa: (RsaKey, seq<byte>) -> seq<byte>,
    encodePQInner: PQInner -> seq<byte>,
    encodeClientInner: ClientDHInner -> seq<byte>,
    decodeServerInner: seq<byte> -> Result<ServerDHInner>,
    encryptor: seq<byte> -> AesIge.Transform,
    decryptor: seq<byte> -> AesIge.Transform,
    rhoFuel: nat)

  /** `n` bytes of the generator's output from position `from`. */
  function RandomBytes(random: nat -> byte, from: nat, n: nat): (r: seq<byte>)
    ensures |r| == n
  {
    seq(n, i requires 0 <= i < n => random(from + i))
  }


  // ---- The payload and the session ----

  /** All properties of an AuthPayload at one moment. NonceServer starts as an empty
      array and is only ever replaced by the server's nonce, so it is never null. */
  datatype PayloadState = PayloadState(
    nonceClient: Nonce16, nonceServer: seq<byte>, newNonce: Nonce32,
    pq: Option<seq<byte>>, authKey: Option<seq<byte>>,
    dhPrime: nat, ga: nat, g: int, b: nat,
    publicKeyTokens: Option<seq<int64>>, serverSalt: int64)

  /** The auth key is the Diffie-Hellman value g_a^b mod dh_prime, written unsigned
      big-endian, and lies below a non-zero dh_prime. */
  predicate SharedKey(p: PayloadState)
  {
    && p.authKey.Some? && p.dhPrime > 0
    && ModPow(p.ga, p.b, p.dhPrime) == Ok(FromBE(p.authKey.value))
    && FromBE(p.authKey.value) < p.dhPrime
  }

  /** A new AuthPayload: zeroed nonces, an empty server nonce, no pq, key or fingerprints,
      and zero for every number. */
  const INITIAL_PAYLOAD: PayloadState :=
    PayloadState(seq(16, _ => 0), [], seq(32, _ => 0), None, None, 0, 0, 0, 0, None, 0)

  /** What the handshake reads and changes: the payload, the requests queued on the
      connection pool, the answers still to be read and how many random bytes have been
      drawn. */
  datatype Session = Session(payload: PayloadState, outbox: seq<Request>, inbox: seq<Answer>, drawn: nat)

  /** `_connectionPool.ReadSingle()`: the next answer; with none left the source would
      wait forever, and the model ends with EndOfStream. */
  function NextAnswer(s: Session): (r: Result<(Answer, Session)>)
    ensures r.Ok? <==> s.inbox != []
    ensures r.Err? ==> r.error == EndOfStream
    ensures r.Ok? ==> [r.value.0] + r.value.1.inbox == s.inbox
    ensures r.Ok? ==> r.value.1 == s.(inbox := r.value.1.inbox)
  {
    if s.inbox == [] then Err(EndOfStream)
    else
      assert [s.inbox[0]] + s.inbox[1..] == s.inbox;
      Ok((s.inbox[0], s.(inbox := s.inbox[1..])))
  }

  /** `after` is `before` with one more request queued at its end. */
  predicate Queued(before: seq<Request>, after: seq<Request>)
  {
    |after| == |before| + 1 && after[..|before|] == before
  }

  /** ReqPQ: 16 fresh random bytes become the client nonce, sent in req_pq_multi. */
  function SendReqPQ(env: Env, s: Session): Session
  {
    var nonce := RandomBytes(env.random, s.drawn, 16);
    Session(s.payload.(nonceClient := nonce), s.outbox + [ReqPqMulti(nonce)], s.inbox, s.drawn + 16)
  }

  /** ResPQ: the server nonce, the key fingerprints and pq of the resPQ answer. */
  function TakeResPQ(s: Session): Result<Session>
  {
    var t :- NextAnswer(s);
    var answer := t.0;
    if !answer.ResPQAnswer? then Err(NoMatchingConstructor)
    else
      Ok(t.1.(payload := t.1.payload.(
        nonceServer := answer.serverNonce, publicKeyTokens := Some(answer.fingerprints), pq := Some(answer.pq))))
  }

  /** ReqDH: pq (signed big-endian) is factored by rho into p <= q; a fresh new nonce is
      drawn; SHA1(inner) ‖ inner ‖ random padding is RSA-encrypted with the first known
      key the server offered, and req_DH_params is queued. */
  function SendReqDH(env: Env, s: Session): Result<Session>
  {
    var p := s.payload;
    if p.pq.None? || p.publicKeyTokens.None? then Err(StateViolation)
    else
      var pq := FromSignedBE(p.pq.value);
      var d :- Rho(pq, env.rhoFuel);
      var factors := OrderFactors(pq, d);
      SendPQInner(env, s, factors.0, factors.1)
  }

  /** ReqDH once p <= q are known: a fresh new nonce, SHA1(inner) ‖ inner ‖ random padding
      RSA-encrypted with the first known key the server offered, and req_DH_params. */
  function SendPQInner(env: Env, s: Session, p: int, q: int): Result<Session>
    requires s.payload.pq.Some? && s.payload.publicKeyTokens.Some?
  {
    var pl := s.payload;
    var newNonce := RandomBytes(env.random, s.drawn, 32);
    var inner := env.encodePQInner(PQInner(pl.pq.value, p, q, pl.nonceClient, pl.nonceServer, newNonce));
    var padding := RandomBytes(env.random, s.drawn + 32, RsaPadLength(|inner|));
    var i := FirstMatch(env.keys, pl.publicKeyTokens.value);
    if i == |env.keys| then Err(MatchedKeyNotFound)
    else
      var key := env.keys[i];
      var encrypted := env.rsa(key, env.sha1(inner) + inner + padding);
      var request := ReqDHParams(pl.nonceClient, pl.nonceServer, p, q, key.fingerprint, encrypted);
      Ok(Session(pl.(newNonce := newNonce), s.outbox + [request], s.inbox, s.drawn + 32 + |padding|))
  }

  /** ResDH, after both null checks: server_DH_params_fail changes nothing; for
      server_DH_params_ok the answer is AES-IGE decrypted with the temporary key and IV,
      its first 20 bytes (the hash) skipped and the rest decoded; dh_prime and g_a are
      read unsigned, b is 256 random bytes, and the auth key is g_a^b mod dh_prime. */
  function TakeResDH(env: Env, s: Session): Result<Session>
  {
    var t :- NextAnswer(s);
    var s1 := t.1;
    var p := s1.payload;
    if p.pq.None? || p.publicKeyTokens.None? then Err(StateViolation)
    else match t.0
      case ServerDHParamsFail => Ok(s1)
      case ServerDHParamsOk(encrypted) => AcceptServerDH(env, s1, encrypted)
      case _ => Err(NoMatchingConstructor)
  }

  /** The server_DH_params_ok arm of ResDH. */
  function AcceptServerDH(env: Env, s: Session, encrypted: seq<byte>): Result<Session>
  {
    var inner :- OpenServerAnswer(env, s.payload.newNonce, s.payload.nonceServer, encrypted);
    AgreeKey(env, s, inner)
  }

  /** ResDH with the decoded server_DH_inner_data: dh_prime and g_a read unsigned, b from
      256 random bytes, and the auth key g_a^b mod dh_prime, unsigned big-endian. */
  function AgreeKey(env: Env, s: Session, inner: ServerDHInner): Result<Session>
  {
    var p := s.payload;
    var b := FromBE(RandomBytes(env.random, s.drawn, 256));
    var dhPrime := FromBE(inner.dhPrime);
    var ga := FromBE(inner.ga);
    var shared :- ModPow(ga, b, dhPrime);
    var authKey := UnsignedBE(shared).value;
    Ok(s.(payload := p.(dhPrime := dhPrime, ga := ga, g := inner.g, b := b, authKey := Some(authKey)),
          drawn := s.drawn + 256))
  }

  /** The encrypted answer AES-IGE decrypted with the temporary key and IV, its leading
      SHA-1 hash skipped and the rest decoded as server_DH_inner_data. */
  function OpenServerAnswer(env: Env, newNonce: Nonce32, nonceServer: seq<byte>, encrypted: seq<byte>): Result<ServerDHInner>
  {
    var iv := TmpAesIV(env.sha1, newNonce, nonceServer);
    var key := TmpAesKey(env.sha1, newNonce, nonceServer);
    var answerWithHash :- AesIge.Decrypt(encrypted, iv, env.decryptor(key));
    if |answerWithHash| < SHA1_SIZE then Err(OutOfRange)
    else env.decodeServerInner(answerWithHash[SHA1_SIZE..])
  }

  /** SetDH: g^b mod dh_prime, unsigned big-endian, goes into client_DH_inner_data and
      set_client_DH_params is queued. */
  function SendSetDH(env: Env, s: Session): Result<Session>
  {
    var p := s.payload;
    var gb :- ModPow(p.g, p.b, p.dhPrime);
    var gbBytes :- UnsignedBE(gb);
    Ok(QueueSetDH(env, s, gbBytes))
  }

  /** The rest of SetDH: client_DH_inner_data with g^b and retry id 0; SHA1(inner) ‖ inner ‖
      random alignment to 16 bytes is AES-IGE encrypted with the temporary key and IV. */
  function QueueSetDH(env: Env, s: Session, gbBytes: seq<byte>): Session
  {
    var p := s.payload;
    var inner := env.encodeClientInner(ClientDHInner(p.nonceClient, p.nonceServer, gbBytes, 0));
    var align := RandomBytes(env.random, s.drawn, AlignLength(SHA1_SIZE + |inner|));
    var plain := env.sha1(inner) + inner + align;
    var iv := TmpAesIV(env.sha1, p.newNonce, p.nonceServer);
    var encrypted := AesIge.Encrypt(plain, iv, env.encryptor(TmpAesKey(env.sha1, p.newNonce, p.nonceServer)));
    assert encrypted.Ok?;
    s.(outbox := s.outbox + [SetClientDHParams(p.nonceClient, p.nonceServer, encrypted.value)],
       drawn := s.drawn + |align|)
  }

  /** DHGenCheck: dh_gen_ok sets the server salt; dh_gen_retry and dh_gen_fail change
      nothing. */
  function TakeDHGenCheck(s: Session): Result<Session>
  {
    var t :- NextAnswer(s);
    var p := t.1.payload;
    match t.0
    case DHGenOk =>
      var salt :- ServerSalt(p.newNonce, p.nonceServer);
      Ok(t.1.(payload := p.(serverSalt := salt)))
    case DHGenRetry => Ok(t.1)
    case DHGenFail => Ok(t.1)
    case _ => Err(NoMatchingConstructor)
  }

  /** The handler of a state other than End, applied to a session. */
  function Handler(env: Env, state: AuthState, s: Session): Result<Session>
    requires state != End
  {
    match state
    case ReqPQ => Ok(SendReqPQ(env, s))
    case ResPQ => TakeResPQ(s)
    case ReqDH => SendReqDH(env, s)
    case ResDH => TakeResDH(env, s)
    case SetDH => SendSetDH(env, s)
    case DHGenCheck => TakeDHGenCheck(s)
  }

  /** ProcessState: `next(state)` paired with the state's handler; End has no arm. */
  function Step(env: Env, state: AuthState, s: Session): (r: Result<(AuthState, Session)>)
    ensures r.Ok? ==> Ordinal(r.value.0) == Ordinal(state) + 1
    ensures state == End ==> r == Err(NotImplemented)
  {
    if state == End then Err(NotImplemented)
    else
      var n := Next(state).value;
      var s' :- Handler(env, state, s);
      Ok((n, s'))
  }

  /** GetKey's loop: the handlers from `state` up to End, stopping at the first exception. */
  function Handshake(env: Env, state: AuthState, s: Session): Result<Session>
    decreases 6 - Ordinal(state)
  {
    if state == End then Ok(s)
    else
      var t :- Step(env, state, s);
      Handshake(env, t.0, t.1)
  }

  /** What GetKey returns once the loop is done: the auth key and the server salt, or an
      ApplicationException when no key was agreed. */
  function KeyOf(r: Result<Session>): (k: Result<(seq<byte>, int64)>)
    ensures k.Ok? ==> r.Ok? && r.value.payload.authKey == Some(k.value.0) && r.value.payload.serverSalt == k.value.1
    ensures r.Ok? && r.value.payload.authKey.None? ==> k == Err(NoAuthKey)
    ensures r.Err? ==> k == Err(r.error)
  {
    var s :- r;
    if s.payload.authKey.Some? then Ok((s.payload.authKey.value, s.payload.serverSalt)) else Err(NoAuthKey)
  }

  // ---- What each handler does ----

  /** ReqPQ changes only the client nonce, and queues req_pq_multi carrying it. */
  lemma ReqPQSends(env: Env, s: Session)
    ensures var r := SendReqPQ(env, s);
      && r.payload == s.payload.(nonceClient := r.payload.nonceClient) && r.inbox == s.inbox
      && Queued(s.outbox, r.outbox) && r.outbox[|s.outbox|] == ReqPqMulti(r.payload.nonceClient)
  {
    var r := SendReqPQ(env, s);
    assert r.outbox[..|s.outbox|] == s.outbox;
  }

  /** ResPQ succeeds exactly on a resPQ answer, whose server nonce, fingerprints and pq
      it stores; it queues nothing. */
  lemma ResPQTakes(s: Session)
    ensures var r := TakeResPQ(s);
      && (r.Ok? <==> s.inbox != [] && s.inbox[0].ResPQAnswer?)
      && (r.Err? ==> r.error == if s.inbox == [] then EndOfStream else NoMatchingConstructor)
      && (r.Ok? ==> var a := s.inbox[0];
        && r.value.payload == s.payload.(nonceServer := a.serverNonce, publicKeyTokens := Some(a.fingerprints), pq := Some(a.pq))
        && r.value.inbox == s.inbox[1..] && r.value.outbox == s.outbox)
  {
  }

  /** ReqDH needs pq and the fingerprints; it changes only the new nonce and queues
      req_DH_params with the client and server nonces, factors p <= q whose product is
      pq, and the fingerprint of a known key the server offered. */
  lemma ReqDHSends(env: Env, s: Session)
    ensures var r := SendReqDH(env, s);
      && (s.payload.pq.None? || s.payload.publicKeyTokens.None? ==> r == Err(StateViolation))
      && (r.Err? ==>
        r.error == StateViolation || r.error == DivideByZero || r.error == RhoFailure || r.error == Diverges
        || r.error == MatchedKeyNotFound)
      && (r.Ok? ==>
        && r.value.payload == s.payload.(newNonce := r.value.payload.newNonce) && r.value.inbox == s.inbox
        && Queued(s.outbox, r.value.outbox)
        && var req := r.value.outbox[|s.outbox|];
        && req.ReqDHParams? && req.nonce == s.payload.nonceClient && req.serverNonce == s.payload.nonceServer
        && req.p <= req.q && req.p * req.q == FromSignedBE(s.payload.pq.value)
        && req.fingerprint in s.payload.publicKeyTokens.value
        && (exists key :: key in env.keys && key.fingerprint == req.fingerprint))
  {
    var p := s.payload;
    if p.pq.Some? && p.publicKeyTokens.Some? {
      var pq := FromSignedBE(p.pq.value);
      var d := Rho(pq, env.rhoFuel);
      if d.Ok? {
        FactorsOfPQ(pq, d.value);
        var factors := OrderFactors(pq, d.value);
        PQInnerSends(env, s, factors.0, factors.1);
      }
    }
  }

  /** With p and q fixed, ReqDH fails exactly when no known key matches a fingerprint the
      server offered. */
  lemma PQInnerSends(env: Env, s: Session, p: int, q: int)
    requires s.payload.pq.Some? && s.payload.publicKeyTokens.Some?
    ensures var r := SendPQInner(env, s, p, q);
      && (r.Err? <==> forall key :: key in env.keys ==> key.fingerprint !in s.payload.publicKeyTokens.value)
      && (r.Err? ==> r.error == MatchedKeyNotFound)
      && (r.Ok? ==>
        && r.value.payload == s.payload.(newNonce := r.value.payload.newNonce) && r.value.inbox == s.inbox
        && Queued(s.outbox, r.value.outbox)
        && var req := r.value.outbox[|s.outbox|];
        && req.ReqDHParams? && req.nonce == s.payload.nonceClient && req.serverNonce == s.payload.nonceServer
        && req.p == p && req.q == q && req.fingerprint in s.payload.publicKeyTokens.value
        && (exists key :: key in env.keys && key.fingerprint == req.fingerprint))
  {
    var r := SendPQInner(env, s, p, q);
    var tokens := s.payload.publicKeyTokens.value;
    var i := FirstMatch(env.keys, tokens);
    if i == |env.keys| {
      forall key | key in env.keys ensures key.fingerprint !in tokens {
        var j :| 0 <= j < |env.keys| && env.keys[j] == key;
      }
    } else {
      assert env.keys[i] in env.keys;
      assert r.value.outbox[..|s.outbox|] == s.outbox;
    }
  }

  /** ResDH needs pq and the fingerprints; it accepts server_DH_params_ok, which agrees
      on a key, or server_DH_params_fail, which changes nothing else; it queues nothing
      and keeps the nonces. */
  lemma ResDHTakes(env: Env, s: Session)
    ensures var r := TakeResDH(env, s);
      && (s.inbox == [] ==> r == Err(EndOfStream))
      && (s.inbox != [] && (s.payload.pq.None? || s.payload.publicKeyTokens.None?) ==> r == Err(StateViolation))
      && (r.Ok? ==>
        && s.inbox != [] && (s.inbox[0].ServerDHParamsOk? || s.inbox[0].ServerDHParamsFail?)
        && r.value.inbox == s.inbox[1..] && r.value.outbox == s.outbox
        && r.value.payload.nonceClient == s.payload.nonceClient
        && r.value.payload.nonceServer == s.payload.nonceServer
        && r.value.payload.newNonce == s.payload.newNonce)
      && (r.Ok? && s.inbox[0].ServerDHParamsFail? ==> r.value == s.(inbox := s.inbox[1..]))
      && (r.Ok? && s.inbox[0].ServerDHParamsOk? ==> SharedKey(r.value.payload))
  {
    if s.inbox != [] && s.inbox[0].ServerDHParamsOk? {
      var s1 := s.(inbox := s.inbox[1..]);
      var inner := OpenServerAnswer(env, s1.payload.newNonce, s1.payload.nonceServer, s.inbox[0].encryptedAnswer);
      if inner.Ok? {
        AgreeKeyShares(env, s1, inner.value);
      }
    }
  }

  /** The key agreement fails only on a zero dh_prime; otherwise the auth key is the
      Diffie-Hellman value of the server's g_a and the client's b. */
  lemma AgreeKeyShares(env: Env, s: Session, inner: ServerDHInner)
    ensures var r := AgreeKey(env, s, inner);
      && (r.Err? <==> FromBE(inner.dhPrime) == 0)
      && (r.Err? ==> r.error == DivideByZero)
      && (r.Ok? ==>
        && r.value.payload.dhPrime == FromBE(inner.dhPrime) && r.value.payload.ga == FromBE(inner.ga)
        && r.value.payload.g == inner.g && SharedKey(r.value.payload)
        && r.value.inbox == s.inbox && r.value.outbox == s.outbox
        && r.value.payload.nonceClient == s.payload.nonceClient
        && r.value.payload.nonceServer == s.payload.nonceServer
        && r.value.payload.newNonce == s.payload.newNonce)
  {
  }

  /** SetDH fails on a zero dh_prime (DivideByZero) or a negative g^b (OverflowError); it
      always succeeds for a non-negative g and a non-zero dh_prime, keeps the payload and
      queues set_client_DH_params with both nonces. */
  lemma SetDHSends(env: Env, s: Session)
    ensures var r := SendSetDH(env, s);
      && (s.payload.dhPrime == 0 ==> r == Err(DivideByZero))
      && (s.payload.dhPrime != 0 && s.payload.g >= 0 ==> r.Ok?)
      && (r.Err? ==> r.error == DivideByZero || r.error == OverflowError)
      && (r.Ok? ==>
        && r.value.payload == s.payload && r.value.inbox == s.inbox && Queued(s.outbox, r.value.outbox)
        && var req := r.value.outbox[|s.outbox|];
        && req.SetClientDHParams? && req.nonce == s.payload.nonceClient && req.serverNonce == s.payload.nonceServer)
  {
    var r := SendSetDH(env, s);
    if r.Ok? {
      assert r.value.outbox[..|s.outbox|] == s.outbox;
    }
  }

  /** DHGenCheck accepts the three dh_gen answers and changes at most the server salt,
      which only dh_gen_ok sets. */
  lemma DHGenCheckTakes(s: Session)
    ensures var r := TakeDHGenCheck(s);
      && (r.Ok? ==>
        && s.inbox != [] && (s.inbox[0].DHGenOk? || s.inbox[0].DHGenRetry? || s.inbox[0].DHGenFail?)
        && r.value.inbox == s.inbox[1..] && r.value.outbox == s.outbox
        && r.value.payload == s.payload.(serverSalt := r.value.payload.serverSalt))
      && (r.Ok? && !s.inbox[0].DHGenOk? ==> r.value.payload == s.payload)
      && (s.inbox != [] && s.inbox[0].DHGenOk? ==>
        r == (var salt :- ServerSalt(s.payload.newNonce, s.payload.nonceServer);
              Ok(s.(inbox := s.inbox[1..], payload := s.payload.(serverSalt := salt)))))
  {
  }

  /** What the client agreed on is the secret the server computes: when the server's g_a
      is g^a mod dh_prime for its secret a, raising the client's g^b mod dh_prime to a
      gives the auth key. */
  lemma SharedSecret(p: PayloadState, a: nat)
    requires SharedKey(p) && p.g >= 0 && p.ga == ModPow(p.g, a, p.dhPrime).value
    ensures ModPow(ModPow(p.g, p.b, p.dhPrime).value, a, p.dhPrime) == Ok(FromBE(p.authKey.value))
  {
    DHAgreement(p.g, a, p.b, p.dhPrime);
  }

  /** With a block cipher the decryptor inverts, the server recovers what SetDH encrypted:
      SHA1(client_DH_inner_data), then the inner data, then the alignment, a whole number
      of blocks. */
  lemma SetDHDecrypts(env: Env, s: Session, gbBytes: seq<byte>)
    requires var k := TmpAesKey(env.sha1, s.payload.newNonce, s.payload.nonceServer);
      forall blk: AesIge.Block :: env.decryptor(k)(env.encryptor(k)(blk)) == blk
    ensures var r := QueueSetDH(env, s, gbBytes);
      var p := s.payload;
      var inner := env.encodeClientInner(ClientDHInner(p.nonceClient, p.nonceServer, gbBytes, 0));
      var d := AesIge.Decrypt(r.outbox[|s.outbox|].encryptedData, TmpAesIV(env.sha1, p.newNonce, p.nonceServer),
                              env.decryptor(TmpAesKey(env.sha1, p.newNonce, p.nonceServer)));
      && r.outbox[|s.outbox|].SetClientDHParams? && d.Ok? && |d.value| % 16 == 0
      && |d.value| >= SHA1_SIZE + |inner| && d.value[..SHA1_SIZE] == env.sha1(inner)
      && d.value[SHA1_SIZE..SHA1_SIZE + |inner|] == inner
  {
    var p := s.payload;
    var inner := env.encodeClientInner(ClientDHInner(p.nonceClient, p.nonceServer, gbBytes, 0));
    var align := RandomBytes(env.random, s.drawn, AlignLength(SHA1_SIZE + |inner|));
    var plain := env.sha1(inner) + inner + align;
    var iv := TmpAesIV(env.sha1, p.newNonce, p.nonceServer);
    var k := TmpAesKey(env.sha1, p.newNonce, p.nonceServer);
    AesIge.DecryptEncrypt(plain, iv, env.encryptor(k), env.decryptor(k));
    assert plain[..SHA1_SIZE] == env.sha1(inner);
    assert plain[SHA1_SIZE..SHA1_SIZE + |inner|] == inner;
  }

  // ---- Properties of a run ----

  /** One round of GetKey's loop: a run from a state other than End goes on from where
      that state's handler leaves it, or stops with the handler's exception. */
  lemma HandshakeStep(env: Env, state: AuthState, s: Session)
    requires state != End
    ensures var t := Step(env, state, s);
      && (t.Err? ==> Handshake(env, state, s) == Err(t.error))
      && (t.Ok? ==> Handshake(env, state, s) == Handshake(env, t.value.0, t.value.1))
  {
  }

  /** GetKey's loop unrolled: the six handlers in the order of `stateMap`. */
  function Unrolled(env: Env, s0: Session): Result<Session>
  {
    var s1 := SendReqPQ(env, s0);
    var s2 :- TakeResPQ(s1);
    var s3 :- SendReqDH(env, s2);
    var s4 :- TakeResDH(env, s3);
    var s5 :- SendSetDH(env, s4);
    TakeDHGenCheck(s5)
  }

  /** The loop from ReqPQ runs each handler once, in order, and nothing else. */
  lemma HandshakeUnrolled(env: Env, s0: Session)
    ensures Handshake(env, ReqPQ, s0) == Unrolled(env, s0)
  {
    var s1 := SendReqPQ(env, s0);
    HandshakeAfter(env, ReqPQ, s0);
    HandshakeAfter(env, ResPQ, s1);
    var r2 := TakeResPQ(s1);
    if r2.Ok? {
      HandshakeAfter(env, ReqDH, r2.value);
      var r3 := SendReqDH(env, r2.value);
      if r3.Ok? {
        HandshakeAfter(env, ResDH, r3.value);
        var r4 := TakeResDH(env, r3.value);
        if r4.Ok? {
          HandshakeAfter(env, SetDH, r4.value);
          var r5 := SendSetDH(env, r4.value);
          if r5.Ok? {
            HandshakeAfter(env, DHGenCheck, r5.value);
          }
        }
      }
    }
  }

  /** A run from a state other than End is that state's handler followed by a run from the
      next state. */
  lemma HandshakeAfter(env: Env, state: AuthState, s: Session)
    requires state != End
    ensures Handshake(env, state, s) ==
      var s' :- Handler(env, state, s); Handshake(env, Next(state).value, s')
  {
    HandshakeStep(env, state, s);
  }

  /** server_DH_params_fail leaves dh_prime at its initial zero, so the run does not reach
      End: SetDH's modular power divides by zero. */
  lemma ServerFailAborts(env: Env, s: Session)
    requires s.payload.dhPrime == 0 && s.payload.pq.Some? && s.payload.publicKeyTokens.Some?
    requires s.inbox != [] && s.inbox[0].ServerDHParamsFail?
    ensures Handshake(env, ResDH, s) == Err(DivideByZero)
  {
    var s4 := s.(inbox := s.inbox[1..]);
    assert Handler(env, ResDH, s) == Ok(s4) by {
      assert NextAnswer(s) == Ok((s.inbox[0], s4));
    }
    HandshakeAfter(env, ResDH, s);
    assert Handler(env, SetDH, s4) == Err(DivideByZero) by {
      SetDHSends(env, s4);
    }
    HandshakeAfter(env, SetDH, s4);
  }

  /** A run from a payload without a dh_prime that reaches End went through
      server_DH_params_ok and ends with an agreed key, which GetKey returns. */
  lemma HandshakeAgreesKey(env: Env, s0: Session)
    requires s0.payload.dhPrime == 0 && Handshake(env, ReqPQ, s0).Ok?
    ensures |s0.inbox| >= 2 && s0.inbox[1].ServerDHParamsOk?
    ensures SharedKey(Handshake(env, ReqPQ, s0).value.payload)
    ensures KeyOf(Handshake(env, ReqPQ, s0)).Ok?
  {
    HandshakeUnrolled(env, s0);
    var s1 := SendReqPQ(env, s0);
    var s2 := TakeResPQ(s1).value;
    var s3 := SendReqDH(env, s2).value;
    var s4 := TakeResDH(env, s3).value;
    var s5 := SendSetDH(env, s4).value;
    var s6 := TakeDHGenCheck(s5).value;
    ReqPQSends(env, s0);
    ResPQTakes(s1);
    ReqDHSends(env, s2);
    ResDHTakes(env, s3);
    SetDHSends(env, s4);
    DHGenCheckTakes(s5);
    assert s3.payload.dhPrime == 0 && s3.inbox[0] == s0.inbox[1];
    assert s4.payload == s6.payload.(serverSalt := s4.payload.serverSalt);
  }

  /** The three requests of one handshake against the resPQ answer they follow:
      req_pq_multi, req_DH_params and set_client_DH_params, all with the same client
      nonce; the last two carry the server's nonce, and req_DH_params carries factors
      p <= q whose product is the server's pq and the fingerprint of a known key the
      server offered. */
  predicate HandshakeRequests(reqs: seq<Request>, res: Answer, keys: seq<RsaKey>)
  {
    && |reqs| == 3 && res.ResPQAnswer?
    && reqs[0].ReqPqMulti? && reqs[1].ReqDHParams? && reqs[2].SetClientDHParams?
    && reqs[1].nonce == reqs[0].nonce && reqs[2].nonce == reqs[0].nonce
    && reqs[1].serverNonce == res.serverNonce && reqs[2].serverNonce == res.serverNonce
    && reqs[1].p <= reqs[1].q && reqs[1].p * reqs[1].q == FromSignedBE(res.pq)
    && reqs[1].fingerprint in res.fingerprints
    && (exists key :: key in keys && key.fingerprint == reqs[1].fingerprint)
  }

  /** Three answers taken off an inbox, one at a time. */
  lemma ThreeTaken(i0: seq<Answer>, i2: seq<Answer>, i4: seq<Answer>, i6: seq<Answer>)
    requires i0 != [] && i2 == i0[1..] && i2 != [] && i4 == i2[1..] && i4 != [] && i6 == i4[1..]
    ensures |i0| >= 3 && i6 == i0[3..] && i2[0] == i0[1] && i4[0] == i0[2]
  {
    assert i0[1..][1..][1..] == i0[3..];
  }

  /** Three requests queued after an outbox, one at a time. */
  lemma ThreeQueued(o0: seq<Request>, o1: seq<Request>, o3: seq<Request>, o5: seq<Request>)
    requires Queued(o0, o1) && Queued(o1, o3) && Queued(o3, o5)
    ensures |o5| == |o0| + 3 && o5[..|o0|] == o0
    ensures o5[|o0|..] == [o1[|o0|], o3[|o0| + 1], o5[|o0| + 2]]
  {
    var n := |o0|;
    assert o5[..n] == o5[..n + 2][..n] == o3[..n] == o3[..n + 1][..n] == o1[..n];
    assert o5[n] == o3[n] == o1[n];
    assert o5[n + 1] == o3[n + 1];
  }

  /** A run that ends at End has read exactly three answers (resPQ, then
      server_DH_params, then a dh_gen answer) and queued exactly the three requests of
      a handshake after whatever was queued before. */
  lemma HandshakeTranscript(env: Env, s0: Session)
    requires Handshake(env, ReqPQ, s0).Ok?
    ensures var s := Handshake(env, ReqPQ, s0).value;
      && |s0.inbox| >= 3 && s.inbox == s0.inbox[3..]
      && (s0.inbox[1].ServerDHParamsOk? || s0.inbox[1].ServerDHParamsFail?)
      && (s0.inbox[2].DHGenOk? || s0.inbox[2].DHGenRetry? || s0.inbox[2].DHGenFail?)
      && |s.outbox| >= |s0.outbox| && s.outbox[..|s0.outbox|] == s0.outbox
      && HandshakeRequests(s.outbox[|s0.outbox|..], s0.inbox[0], env.keys)
  {
    var n := |s0.outbox|;
    HandshakeUnrolled(env, s0);
    var s1 := SendReqPQ(env, s0);
    var s2 := TakeResPQ(s1).value;
    var s3 := SendReqDH(env, s2).value;
    var s4 := TakeResDH(env, s3).value;
    var s5 := SendSetDH(env, s4).value;
    var s6 := TakeDHGenCheck(s5).value;
    ReqPQSends(env, s0);
    ResPQTakes(s1);
    ReqDHSends(env, s2);
    ResDHTakes(env, s3);
    SetDHSends(env, s4);
    DHGenCheckTakes(s5);
    assert Handshake(env, ReqPQ, s0) == Ok(s6);
    ThreeTaken(s0.inbox, s2.inbox, s4.inbox, s6.inbox);
    ThreeQueued(s0.outbox, s1.outbox, s3.outbox, s5.outbox);
    var reqs := s6.outbox[n..];
    assert s2.payload.nonceClient == s4.payload.nonceClient == reqs[0].nonce;
    assert HandshakeRequests(reqs, s0.inbox[0], env.keys);
  }

  // ---- The objects ----

  /** AuthPayload: what the handshake has learnt so far; a missing array is null. */
  class AuthPayload {
    var nonceClient: Nonce16
    var nonceServer: seq<byte>
    var newNonce: Nonce32
    var pq: Option<seq<byte>>
    var authKey: Option<seq<byte>>
    var dhPrime: nat
    var ga: nat
    var g: int
    var b: nat
    var publicKeyTokens: Option<seq<int64>>
    var serverSalt: int64

    function State(): PayloadState
      reads this
    {
      PayloadState(nonceClient, nonceServer, newNonce, pq, authKey, dhPrime, ga, g, b, publicKeyTokens, serverSalt)
    }

    /** The property initialisers. */
    constructor ()
      ensures State() == INITIAL_PAYLOAD
    {
      nonceClient := seq(16, _ => 0);
      nonceServer := [];
      newNonce := seq(32, _ => 0);
      pq := None;
      authKey := None;
      dhPrime, ga, g, b := 0, 0, 0, 0;
      publicKeyTokens := None;
      serverSalt := 0;
    }
  }

  /** AuthKeyGenerator over its connection pool: the requests it has queued, the answers
      the pool will hand it, and the random bytes drawn so far. */
  class Generator {
    const env: Env
    var outbox: seq<Request>
    var inbox: seq<Answer>
    var drawn: nat

    constructor (env: Env, inbox: seq<Answer>)
      ensures this.env == env && this.inbox == inbox && outbox == [] && drawn == 0
    {
      this.env := env;
      this.inbox := inbox;
      outbox := [];
      drawn := 0;
    }

    function SessionOf(payload: AuthPayload): Session
      reads this, payload
    {
      Session(payload.State(), outbox, inbox, drawn)
    }

    /** RandomNumberGenerator.GetBytes on `n` bytes. */
    method Draw(n: nat) returns (bytes: seq<byte>)
      modifies this
      ensures bytes == RandomBytes(env.random, old(drawn), n) && drawn == old(drawn) + n
      ensures outbox == old(outbox) && inbox == old(inbox)
    {
      bytes := RandomBytes(env.random, drawn, n);
      drawn := drawn + n;
    }

    /** `_connectionPool.ReadSingle()`. */
    method ReadSingle() returns (r: Result<Answer>)
      modifies this
      ensures var e := NextAnswer(Session(INITIAL_PAYLOAD, old(outbox), old(inbox), old(drawn)));
        && (r.Ok? <==> e.Ok?) && (r.Err? ==> r.error == e.error)
        && (r.Ok? ==> r.value == e.value.0 && inbox == e.value.1.inbox)
        && (r.Err? ==> inbox == old(inbox))
      ensures outbox == old(outbox) && drawn == old(drawn)
    {
      if inbox == [] {
        return Err(EndOfStream);
      }
      r := Ok(inbox[0]);
      inbox := inbox[1..];
    }

    method ReqPQStep(payload: AuthPayload)
      modifies this, payload
      ensures SessionOf(payload) == SendReqPQ(env, old(SessionOf(payload)))
    {
      var nonce := Draw(16);
      payload.nonceClient := nonce;
      outbox := outbox + [ReqPqMulti(nonce)];
    }

    method ResPQStep(payload: AuthPayload) returns (r: Result<()>)
      modifies this, payload
      ensures var e := TakeResPQ(old(SessionOf(payload)));
        && (r.Ok? <==> e.Ok?) && (r.Err? ==> r.error == e.error && outbox == old(outbox))
        && (r.Ok? ==> SessionOf(payload) == e.value)
    {
      var answer :- ReadSingle();
      if !answer.ResPQAnswer? {
        return Err(NoMatchingConstructor);
      }
      payload.nonceServer := answer.serverNonce;
      payload.publicKeyTokens := Some(answer.fingerprints);
      payload.pq := Some(answer.pq);
      r := Ok(());
    }

    method ReqDHStep(payload: AuthPayload) returns (r: Result<()>)
      modifies this, payload
      ensures var e := SendReqDH(env, old(SessionOf(payload)));
        && (r.Ok? <==> e.Ok?) && (r.Err? ==> r.error == e.error && outbox == old(outbox))
        && (r.Ok? ==> SessionOf(payload) == e.value)
    {
      if payload.pq.None? || payload.publicKeyTokens.None? {
        return Err(StateViolation);
      }
      var pq := FromSignedBE(payload.pq.value);
      var d :- RhoPollard(pq, env.rhoFuel);
      var factors := OrderFactors(pq, d);
      r := SendPQInnerStep(payload, factors.0, factors.1, SessionOf(payload));
    }

    method SendPQInnerStep(payload: AuthPayload, p: int, q: int, ghost s0: Session) returns (r: Result<()>)
      requires s0 == SessionOf(payload) && payload.pq.Some? && payload.publicKeyTokens.Some?
      modifies this, payload
      ensures var e := SendPQInner(env, s0, p, q);
        && (r.Ok? <==> e.Ok?) && (r.Err? ==> r.error == e.error && outbox == s0.outbox)
        && (r.Ok? ==> SessionOf(payload) == e.value)
    {
      var newNonce := Draw(32);
      payload.newNonce := newNonce;
      var inner := env.encodePQInner(PQInner(payload.pq.value, p, q, payload.nonceClient, payload.nonceServer, newNonce));
      var padding := Draw(RsaPadLength(|inner|));
      var i := FirstMatch(env.keys, payload.publicKeyTokens.value);
      if i == |env.keys| {
        return Err(MatchedKeyNotFound);
      }
      var key := env.keys[i];
      var encrypted := env.rsa(key, env.sha1(inner) + inner + padding);
      outbox := outbox + [ReqDHParams(payload.nonceClient, payload.nonceServer, p, q, key.fingerprint, encrypted)];
      r := Ok(());
    }

    method ResDHStep(payload: AuthPayload) returns (r: Result<()>)
      modifies this, payload
      ensures var e := TakeResDH(env, old(SessionOf(payload)));
        && (r.Ok? <==> e.Ok?) && (r.Err? ==> r.error == e.error && outbox == old(outbox))
        && (r.Ok? ==> SessionOf(payload) == e.value)
    {
      var answer :- ReadSingle();
      if payload.pq.None? || payload.publicKeyTokens.None? {
        return Err(StateViolation);
      }
      match answer
      case ServerDHParamsFail =>
        r := Ok(());
      case ServerDHParamsOk(encrypted) =>
        r := AcceptServerDHStep(payload, encrypted, SessionOf(payload));
      case _ =>
        r := Err(NoMatchingConstructor);
    }

    /** The server_DH_params_ok arm of ResDH. */
    method AcceptServerDHStep(payload: AuthPayload, encrypted: seq<byte>, ghost s0: Session) returns (r: Result<()>)
      requires s0 == SessionOf(payload)
      modifies this, payload
      ensures var e := AcceptServerDH(env, s0, encrypted);
        && (r.Ok? <==> e.Ok?) && (r.Err? ==> r.error == e.error && outbox == s0.outbox)
        && (r.Ok? ==> SessionOf(payload) == e.value)
    {
      var inner :- OpenServerAnswer(env, payload.newNonce, payload.nonceServer, encrypted);
      r := AgreeKeyStep(payload, inner, s0);
    }

    method AgreeKeyStep(payload: AuthPayload, inner: ServerDHInner, ghost s0: Session) returns (r: Result<()>)
      requires s0 == SessionOf(payload)
      modifies this, payload
      ensures var e := AgreeKey(env, s0, inner);
        && (r.Ok? <==> e.Ok?) && (r.Err? ==> r.error == e.error && outbox == s0.outbox)
        && (r.Ok? ==> SessionOf(payload) == e.value)
    {
      payload.dhPrime := FromBE(inner.dhPrime);
      payload.ga := FromBE(inner.ga);
      payload.g := inner.g;
      var bArray := Draw(256);
      payload.b := FromBE(bArray);
      ghost var p1 := s0.payload.(dhPrime := payload.dhPrime, ga := payload.ga, g := inner.g, b := payload.b);
      assert payload.State() == p1.(authKey := payload.authKey);
      var shared :- ModPow(payload.ga, payload.b, payload.dhPrime);
      var authKey := UnsignedBE(shared).value;
      payload.authKey := Some(authKey);
      assert SessionOf(payload) == s0.(payload := p1.(authKey := Some(authKey)), drawn := s0.drawn + 256);
      r := Ok(());
    }

    method SetDHStep(payload: AuthPayload) returns (r: Result<()>)
      modifies this
      ensures var e := SendSetDH(env, old(SessionOf(payload)));
        && (r.Ok? <==> e.Ok?) && (r.Err? ==> r.error == e.error && outbox == old(outbox))
        && (r.Ok? ==> SessionOf(payload) == e.value)
    {
      var gb :- ModPow(payload.g, payload.b, payload.dhPrime);
      var gbBytes :- UnsignedBE(gb);
      QueueSetDHStep(payload, gbBytes, SessionOf(payload));
      r := Ok(());
    }

    method QueueSetDHStep(payload: AuthPayload, gbBytes: seq<byte>, ghost s0: Session)
      requires s0 == SessionOf(payload)
      modifies this
      ensures SessionOf(payload) == QueueSetDH(env, s0, gbBytes)
    {
      var inner := env.encodeClientInner(ClientDHInner(payload.nonceClient, payload.nonceServer, gbBytes, 0));
      var align := Draw(AlignLength(SHA1_SIZE + |inner|));
      var plain := env.sha1(inner) + inner + align;
      var iv := TmpAesIV(env.sha1, payload.newNonce, payload.nonceServer);
      var encrypted := AesIge.Encrypt(plain, iv, env.encryptor(TmpAesKey(env.sha1, payload.newNonce, payload.nonceServer)));
      outbox := outbox + [SetClientDHParams(payload.nonceClient, payload.nonceServer, encrypted.value)];
    }

    method DHGenCheckStep(payload: AuthPayload) returns (r: Result<()>)
      modifies this, payload
      ensures var e := TakeDHGenCheck(old(SessionOf(payload)));
        && (r.Ok? <==> e.Ok?) && (r.Err? ==> r.error == e.error && outbox == old(outbox))
        && (r.Ok? ==> SessionOf(payload) == e.value)
    {
      var answer :- ReadSingle();
      match answer
      case DHGenOk =>
        var salt :- ServerSalt(payload.newNonce, payload.nonceServer);
        payload.serverSalt := salt;
        r := Ok(());
      case DHGenRetry =>
        r := Ok(());
      case DHGenFail =>
        r := Ok(());
      case _ =>
        r := Err(NoMatchingConstructor);
    }

    /** ProcessState: the state's handler, then the state after it. */
    method ProcessState(state: AuthState, payload: AuthPayload) returns (r: Result<AuthState>)
      modifies this, payload
      ensures var e := Step(env, state, old(SessionOf(payload)));
        && (r.Ok? <==> e.Ok?) && (r.Err? ==> r.error == e.error && outbox == old(outbox))
        && (r.Ok? ==> r.value == e.value.0 && SessionOf(payload) == e.value.1)
    {
      if state == End {
        return Err(NotImplemented);
      }
      var next := Next(state).value;
      var done: Result<()>;
      match state {
        case ReqPQ => ReqPQStep(payload); done := Ok(());
        case ResPQ => done := ResPQStep(payload);
        case ReqDH => done := ReqDHStep(payload);
        case ResDH => done := ResDHStep(payload);
        case SetDH => done := SetDHStep(payload);
        case DHGenCheck => done := DHGenCheckStep(payload);
      }
      if done.Err? {
        return Err(done.error);
      }
      r := Ok(next);
    }

    /** GetKey: the handshake from ReqPQ with a new payload until End; the auth key and
        server salt, or an exception. */
    method GetKey() returns (r: Result<(seq<byte>, int64)>)
      modifies this
      ensures var e := Handshake(env, ReqPQ, Session(INITIAL_PAYLOAD, old(outbox), old(inbox), old(drawn)));
        && r == KeyOf(e)
        && (e.Ok? ==> outbox == e.value.outbox && inbox == e.value.inbox && drawn == e.value.drawn)
    {
      var state := ReqPQ;
      var payload := new AuthPayload();
      ghost var outcome := Handshake(env, ReqPQ, SessionOf(payload));
      while state != End
        invariant Handshake(env, state, SessionOf(payload)) == outcome
        decreases 6 - Ordinal(state)
      {
        var next := ProcessState(state, payload);
        if next.Err? {
          return Err(next.error);
        }
        state := next.value;
      }
      if payload.authKey.Some? {
        return Ok((payload.authKey.value, payload.serverSalt));
      }
      r := Err(NoAuthKey);
    }
  }
}
