/** WAL record encryption and key rotation (WALEncryptor in internal/wal/encryptor.go). */
module Encryptor {
  import opened Bytes

  type Key = seq<byte>

  const NONCE_SIZE := 12

  type Nonce = n: seq<byte> | |n| == NONCE_SIZE witness [0, 0, 0, 0, 0, 0, 0, 0, 0, 0, 0, 0]

  /** AES-GCM as section 7 of NIST SP 800-38D specifies it, seen from outside. */
  datatype Aead = Aead(seal: (Key, seq<byte>, seq<byte>) -> seq<byte>,
                       unseal: (Key, seq<byte>, seq<byte>) -> Option<seq<byte>>)
  {
    ghost predicate Lawful() {
      forall key, nonce, plain :: unseal(key, nonce, seal(key, nonce, plain)) == Some(plain)
    }
  }

  /** currentKey, keyVersion and keyCache. */
  datatype Keyring = Keyring(key: Key, version: u32, cache: map<u32, Key>) {
    ghost predicate Coherent() { version in cache && cache[version] == key }
  }

  /** A record as it was sealed. */
  datatype Rec = Rec(key: Key, version: u32, nonce: Nonce, plain: seq<byte>)

  function Sealed(a: Aead, r: Rec): seq<byte> { r.nonce + a.seal(r.key, r.nonce, r.plain) }

  /** [4-byte length][4-byte key version][nonce and ciphertext]; the length is a uint32. */
  function Frame(a: Aead, r: Rec): (f: seq<byte>)
    ensures |f| == 8 + |Sealed(a, r)|
  {
    PutUint32((4 + |Sealed(a, r)|) % 0x1_0000_0000) + PutUint32(r.version) + Sealed(a, r)
  }

  /** The record's length fits the length field. */
  ghost predicate Fits(a: Aead, r: Rec) { 4 + |Sealed(a, r)| < 0x1_0000_0000 }

  /** A slice expression out of range panics. */
  datatype Decrypted = Plain(data: seq<byte>) | Error | Panic

  function Decrypt(a: Aead, cache: map<u32, Key>, ciphertext: seq<byte>): Decrypted {
    if |ciphertext| < 8 then Error
    else
      var totalLen: int := Uint32(ciphertext[..4]);
      var version := Uint32(ciphertext[4..8]);
      if version !in cache then Error
      else
        var data := ciphertext[8..];
        var cipherLen := totalLen - 4;
        if |data| < cipherLen then Error
        else if cipherLen < NONCE_SIZE then Panic
        else
          match a.unseal(cache[version], data[..NONCE_SIZE], data[NONCE_SIZE..cipherLen])
          case Some(plain) => Plain(plain)
          case None => Error
  }

  /** RotateKey: the version is a uint32. */
  function Rotated(r: Keyring, newKey: Key): Keyring {
    Installed(r, newKey, (r.version + 1) % 0x1_0000_0000)
  }

  function Installed(r: Keyring, key: Key, version: u32): Keyring {
    Keyring(key, version, r.cache[version := key])
  }

  /** The bytes of a frame, one by one: big-endian length and version, then nonce and ciphertext. */
  lemma FrameLayout(a: Aead, r: Rec)
    requires Fits(a, r)
    ensures var f, c := Frame(a, r), a.seal(r.key, r.nonce, r.plain);
            && |f| == 20 + |c|
            && Number(f[0], f[1], f[2], f[3]) == |f| - 4
            && Number(f[4], f[5], f[6], f[7]) == r.version
            && f[8..20] == r.nonce && f[20..] == c
  {
    hide Frame;
    FrameParts(a, r);
    var f, c := Frame(a, r), a.seal(r.key, r.nonce, r.plain);
    BigEndian(f[..4]);
    BigEndian(f[4..8]);
    assert f[8..20] == f[8..][..12] && f[20..] == f[8..][12..];
  }

  lemma FrameParts(a: Aead, r: Rec)
    requires Fits(a, r)
    ensures var f := Frame(a, r);
            Uint32(f[..4]) == |f| - 4 && Uint32(f[4..8]) == r.version && f[8..] == Sealed(a, r)
  {
    var f := Frame(a, r);
    PutThenGet(4 + |Sealed(a, r)|);
    PutThenGet(r.version);
    assert f[..4] == PutUint32(4 + |Sealed(a, r)|) && f[4..8] == PutUint32(r.version);
  }

  /** A frame opens to its plaintext under its own key, and is refused when its version is unknown. */
  lemma DecryptFrame(a: Aead, cache: map<u32, Key>, r: Rec)
    requires a.Lawful() && Fits(a, r)
    ensures r.version !in cache ==> Decrypt(a, cache, Frame(a, r)) == Error
    ensures r.version in cache && cache[r.version] == r.key ==> Decrypt(a, cache, Frame(a, r)) == Plain(r.plain)
  {
    hide Frame;
    FrameParts(a, r);
    var data, c := Sealed(a, r), a.seal(r.key, r.nonce, r.plain);
    assert data[..NONCE_SIZE] == r.nonce && data[NONCE_SIZE..|data|] == c;
  }

  /**
   * Decrypt returns a plaintext exactly when the version is known, the length field covers a nonce and
   * no more than there is, and authenticated decryption under that key gives it.
   */
  lemma PlainIff(a: Aead, cache: map<u32, Key>, c: seq<byte>, p: seq<byte>)
    ensures Decrypt(a, cache, c) == Plain(p) <==>
            && |c| >= 20 && Uint32(c[4..8]) in cache
            && 16 <= Uint32(c[..4]) <= |c| - 4
            && a.unseal(cache[Uint32(c[4..8])], c[8..20], c[20..4 + Uint32(c[..4])]) == Some(p)
  {
    hide Uint32;
    if |c| >= 8 && 16 <= Uint32(c[..4]) <= |c| - 4 {
      var data, n := c[8..], Uint32(c[..4]) - 4;
      assert data[..12] == c[8..20] && data[12..n] == c[20..4 + Uint32(c[..4])];
    }
  }

  /** Decrypt panics exactly on a known version whose length field leaves no room for a nonce. */
  lemma PanicIff(a: Aead, cache: map<u32, Key>, c: seq<byte>)
    ensures Decrypt(a, cache, c) == Panic <==>
            |c| >= 8 && Uint32(c[4..8]) in cache && Uint32(c[..4]) < 16 && Uint32(c[..4]) <= |c| - 4
  {}

  /** No frame does, under any keys. */
  lemma FrameNeverPanics(a: Aead, cache: map<u32, Key>, r: Rec)
    requires Fits(a, r)
    ensures Decrypt(a, cache, Frame(a, r)) != Panic
  {
    hide Frame, Decrypt;
    FrameParts(a, r);
    PanicIff(a, cache, Frame(a, r));
  }

  class WALEncryptor {
    const aead: Aead
    var currentKey: Key
    var keyVersion: u32
    var keyCache: map<u32, Key>

    ghost function Ring(): Keyring
      reads this
    {
      Keyring(currentKey, keyVersion, keyCache)
    }

    /** With the key loaded from the secret, or a random one at version 1. */
    constructor (aead: Aead, key: Key, version: u32)
      ensures this.aead == aead && Ring() == Keyring(key, version, map[version := key]) && Ring().Coherent()
    {
      this.aead, currentKey, keyVersion, keyCache := aead, key, version, map[version := key];
    }

    /** `loaded` is what the key loader returns, if there is a loader; None stands for its error. */
    method RefreshKey(expired: bool, hasLoader: bool, loaded: Option<(Key, u32)>) returns (ok: bool)
      modifies this
      ensures ok == (expired && hasLoader ==> loaded.Some?)
      ensures Ring() == if expired && hasLoader && loaded.Some?
                        then Installed(old(Ring()), loaded.value.0, loaded.value.1) else old(Ring())
      ensures expired && hasLoader && loaded.Some? ==>
                && currentKey == loaded.value.0 && keyVersion == loaded.value.1
                && keyCache == old(keyCache)[keyVersion := currentKey]
    {
      if !expired {
        return true;
      }
      if hasLoader {
        if loaded.None? {
          return false;
        }
        currentKey := loaded.value.0;
        keyVersion := loaded.value.1;
        keyCache := keyCache[keyVersion := currentKey];
      }
      return true;
    }

    method RotateKey(newKey: Key)
      modifies this
      ensures Ring() == Rotated(old(Ring()), newKey)
      ensures currentKey == newKey && keyVersion == (old(keyVersion) + 1) % 0x1_0000_0000
      ensures keyCache == old(keyCache)[keyVersion := newKey]
    {
      keyVersion := (keyVersion + 1) % 0x1_0000_0000;
      currentKey := newKey;
      keyCache := keyCache[keyVersion := newKey];
    }

    method Encrypt(plain: seq<byte>, nonce: Nonce) returns (result: seq<byte>)
      ensures result == Frame(aead, Rec(currentKey, keyVersion, nonce, plain))
    {
      var ciphertext := nonce + aead.seal(currentKey, nonce, plain);
      result := PutUint32((4 + |ciphertext|) % 0x1_0000_0000) + PutUint32(keyVersion) + ciphertext;
    }
  }

  // ---- runs of the encryptor ----

  datatype KeyOp = Rotate(key: Key) | Reload(key: Key, version: u32) | Encrypt(nonce: Nonce, plain: seq<byte>)

  datatype KeyState = KeyState(ring: Keyring, records: seq<Rec>)

  function KeyStep(s: KeyState, op: KeyOp): KeyState {
    match op
    case Rotate(key) => s.(ring := Rotated(s.ring, key))
    case Reload(key, version) => s.(ring := Installed(s.ring, key, version))
    case Encrypt(nonce, plain) => s.(records := s.records + [Rec(s.ring.key, s.ring.version, nonce, plain)])
  }

  function KeyRun(start: Keyring, ops: seq<KeyOp>): KeyState {
    if ops == [] then KeyState(start, []) else KeyStep(KeyRun(start, ops[..|ops| - 1]), ops[|ops| - 1])
  }

  /** The cache holds the very key the record was sealed with. */
  ghost predicate Openable(cache: map<u32, Key>, r: Rec) {
    r.version in cache && cache[r.version] == r.key
  }

  ghost predicate AllOpenable(s: KeyState) {
    forall r | r in s.records :: Openable(s.ring.cache, r)
  }

  /** The version an operation binds is not already used by a record sealed with another key. */
  ghost predicate Safe(s: KeyState, op: KeyOp) {
    match op
    case Rotate(key) => forall r | r in s.records && r.version == (s.ring.version + 1) % 0x1_0000_0000 :: r.key == key
    case Reload(key, version) => forall r | r in s.records && r.version == version :: r.key == key
    case Encrypt(_, _) => true
  }

  lemma KeyStepExact(s: KeyState, op: KeyOp)
    requires s.ring.Coherent() && AllOpenable(s)
    ensures KeyStep(s, op).ring.Coherent()
    ensures AllOpenable(KeyStep(s, op)) <==> Safe(s, op)
  {
    var t := KeyStep(s, op);
    match op
    case Encrypt(nonce, plain) =>
    case Rotate(key) =>
      if AllOpenable(t) {
        forall r | r in s.records && r.version == t.ring.version ensures r.key == key { assert Openable(t.ring.cache, r); }
      }
    case Reload(key, version) =>
      if AllOpenable(t) {
        forall r | r in s.records && r.version == version ensures r.key == key { assert Openable(t.ring.cache, r); }
      }
  }

  /** Every operation of the run is safe when it happens. */
  ghost predicate SafeRun(start: Keyring, ops: seq<KeyOp>) {
    ops != [] ==> SafeRun(start, ops[..|ops| - 1]) && Safe(KeyRun(start, ops[..|ops| - 1]), ops[|ops| - 1])
  }

  /** After every prefix of the run, every record produced so far can be opened. */
  ghost predicate AlwaysOpenable(start: Keyring, ops: seq<KeyOp>) {
    AllOpenable(KeyRun(start, ops)) && (ops != [] ==> AlwaysOpenable(start, ops[..|ops| - 1]))
  }

  /**
   * Every record ever produced stays openable throughout the run exactly when no rotation or reload
   * rebinds a version that some record already uses.
   */
  lemma {:induction false} KeyStability(start: Keyring, ops: seq<KeyOp>)
    requires start.Coherent()
    ensures AlwaysOpenable(start, ops) <==> SafeRun(start, ops)
    ensures KeyRun(start, ops).ring.Coherent()
  {
    hide AllOpenable, Safe, KeyStep, Keyring.Coherent;
    if ops == [] {
      NothingToOpen(KeyRun(start, ops));
    } else {
      var p := KeyRun(start, ops[..|ops| - 1]);
      KeyStability(start, ops[..|ops| - 1]);
      KeyStepCoherent(p, ops[|ops| - 1]);
      if AllOpenable(p) { KeyStepExact(p, ops[|ops| - 1]); }
    }
  }

  lemma NothingToOpen(s: KeyState)
    requires s.records == []
    ensures AllOpenable(s)
  {}

  lemma KeyStepCoherent(s: KeyState, op: KeyOp)
    requires s.ring.Coherent()
    ensures KeyStep(s, op).ring.Coherent()
  {}

  /** In a run that never rebinds a version in use, every record still decrypts to its plaintext at the end. */
  lemma SafeRunDecrypts(a: Aead, start: Keyring, ops: seq<KeyOp>, r: Rec)
    requires a.Lawful() && start.Coherent() && SafeRun(start, ops)
    requires r in KeyRun(start, ops).records && Fits(a, r)
    ensures Decrypt(a, KeyRun(start, ops).ring.cache, Frame(a, r)) == Plain(r.plain)
  {
    hide Frame, Decrypt, SafeRun, KeyRun;
    KeyStability(start, ops);
    assert AllOpenable(KeyRun(start, ops));
    assert Openable(KeyRun(start, ops).ring.cache, r);
    DecryptFrame(a, KeyRun(start, ops).ring.cache, r);
  }

  /** Rebinding does happen: rotate, write, reload the stored key, rotate again; the record is then sealed for another key. */
  lemma RotateReloadRotate(start: Keyring, first: Key, second: Key, nonce: Nonce, plain: seq<byte>)
    requires start.Coherent() && first != second
    ensures var ops := [Rotate(first), Encrypt(nonce, plain), Reload(start.key, start.version), Rotate(second)];
            !SafeRun(start, ops) && !AllOpenable(KeyRun(start, ops))
  {
    var r := Rotate(first);
    var ops := [r, Encrypt(nonce, plain), Reload(start.key, start.version), Rotate(second)];
    var o0, o1, o2, o3 := ops[..0], ops[..1], ops[..2], ops[..3];
    assert o3[..2] == o2 && o2[..1] == o1 && o1[..0] == o0;
    var s1 := KeyRun(start, o1);
    assert o1[..|o1| - 1] == o0 && KeyRun(start, o0) == KeyState(start, []);
    assert s1 == KeyState(Rotated(start, first), []);
    var s2 := KeyRun(start, o2);
    var rec := Rec(first, (start.version + 1) % 0x1_0000_0000, nonce, plain);
    assert s2.records == [rec];
    var s3 := KeyRun(start, o3);
    assert rec in s3.records && s3.ring.version == start.version;
    assert !Safe(s3, Rotate(second));
    assert ops[..|ops| - 1] == o3 && ops[3] == Rotate(second);
    assert rec in KeyRun(start, ops).records && !Openable(KeyRun(start, ops).ring.cache, rec);
  }
}
