/**
 * `LiveDataEncryptor`: the live data, encoded as JSON, is prefixed with an
 * 8-byte little-endian time stamp, enciphered twice with a position-keyed
 * XOR stream (one key per layer, the same IV), and framed as
 * IV (16 bytes) ‖ ciphertext ‖ HMAC-SHA256 tag (32 bytes) over IV ‖ ciphertext.
 * The keys come from PBKDF2 over a seed built from the configuration.
 *
 * SHA-256, HMAC-SHA256, PBKDF2-HMAC-SHA256 and Base64 (section 4 of
 * RFC 4648) are library calls; the encryptor holds them as functions. The
 * IV, the clock readings, the random output-file token, the HTTP response
 * carrying the configuration and the JSON encoding of the data are
 * parameters.
 */
module Encryptor {
  import opened Optional
  import opened PyStrings

  type Bytes = seq<bv8>

  /** A SHA-256 digest. */
  type Digest = d: Bytes | |d| == 32 witness seq(32, i => 0 as bv8)

  const IvLength: int := 16
  const TimestampLength: int := 8
  const TagLength: int := 32

  /** `self.max_data_size`: 10 MiB. */
  const MaxDataSize: int := 10 * 1024 * 1024

  /** The keys `fetch_remote_config` insists on, in the order it checks them. */
  const RequiredKeys: seq<string> := ["app_salt", "app_identifier", "version", "live_data_url", "key_iterations"]

  /** The JSON values the configuration is read with. */
  datatype ConfigValue = Text(text: string) | Number(number: int)

  type Config = map<string, ConfigValue>

  /** `struct.pack('<I', n)`: four bytes, the least significant first. */
  function PackU32(v: bv32): (r: Bytes)
    ensures |r| == 4
  {
    [(v & 0xFF) as bv8, ((v >> 8) & 0xFF) as bv8, ((v >> 16) & 0xFF) as bv8, (v >> 24) as bv8]
  }

  /** `struct.unpack('<I', b)`. */
  function UnpackU32(b: Bytes): bv32
    requires |b| == 4
  {
    b[0] as bv32 | ((b[1] as bv32) << 8) | ((b[2] as bv32) << 16) | ((b[3] as bv32) << 24)
  }

  /** `struct.pack('<Q', n)`: eight bytes, the least significant first. */
  function PackU64(v: bv64): (r: Bytes)
    ensures |r| == 8
  {
    [(v & 0xFF) as bv8, ((v >> 8) & 0xFF) as bv8, ((v >> 16) & 0xFF) as bv8, ((v >> 24) & 0xFF) as bv8,
     ((v >> 32) & 0xFF) as bv8, ((v >> 40) & 0xFF) as bv8, ((v >> 48) & 0xFF) as bv8, (v >> 56) as bv8]
  }

  /** `struct.unpack('<Q', b)`. */
  function UnpackU64(b: Bytes): bv64
    requires |b| == 8
  {
    b[0] as bv64 | ((b[1] as bv64) << 8) | ((b[2] as bv64) << 16) | ((b[3] as bv64) << 24)
    | ((b[4] as bv64) << 32) | ((b[5] as bv64) << 40) | ((b[6] as bv64) << 48) | ((b[7] as bv64) << 56)
  }

  /** Packing loses nothing, and every four bytes are the packing of one value. */
  lemma PackU32RoundTrip(v: bv32, b: Bytes)
    requires |b| == 4
    ensures UnpackU32(PackU32(v)) == v
    ensures PackU32(UnpackU32(b)) == b
  {
  }

  /** Packing loses nothing, and every eight bytes are the packing of one value. */
  lemma PackU64RoundTrip(v: bv64, b: Bytes)
    requires |b| == 8
    ensures UnpackU64(PackU64(v)) == v
    ensures PackU64(UnpackU64(b)) == b
  {
  }

  /** `str(n)` for an integer. */
  function DecimalString(n: int): (r: string)
    ensures |r| > 0
    decreases if n < 0 then 1 - n else n
  {
    if n < 0 then "-" + DecimalString(-n)
    else if n < 10 then [DigitChar(n)]
    else DecimalString(n / 10) + [DigitChar(n % 10)]
  }

  /** A configuration value inside an f-string. */
  function Render(v: ConfigValue): string {
    match v
    case Text(s) => s
    case Number(n) => DecimalString(n)
  }

  /** `str.encode('utf-8')` of one character (section 3 of RFC 3629). */
  function Utf8Char(c: char): (r: Bytes)
    ensures 1 <= |r| <= 4
    ensures |r| == 1 <==> c as int < 0x80
  {
    var n := c as int;
    if n < 0x80 then [n as bv8]
    else if n < 0x800 then [(0xC0 + n / 0x40) as bv8, (0x80 + n % 0x40) as bv8]
    else if n < 0x10000 then [(0xE0 + n / 0x1000) as bv8, (0x80 + n / 0x40 % 0x40) as bv8, (0x80 + n % 0x40) as bv8]
    else [(0xF0 + n / 0x40000) as bv8, (0x80 + n / 0x1000 % 0x40) as bv8, (0x80 + n / 0x40 % 0x40) as bv8, (0x80 + n % 0x40) as bv8]
  }

  /** `str.encode('utf-8')`. */
  function Utf8(s: string): (r: Bytes)
    ensures |r| >= |s|
  {
    if s == [] then [] else Utf8(s[..|s| - 1]) + Utf8Char(s[|s| - 1])
  }

  /** `bytes.hex()`: two lower-case hexadecimal digits per byte. */
  function Hex(b: Bytes): (r: string)
    ensures |r| == 2 * |b|
    ensures forall i :: 0 <= i < |r| ==> r[i] in "0123456789abcdef"
  {
    if b == [] then []
    else Hex(b[..|b| - 1]) + ["0123456789abcdef"[b[|b| - 1] as int / 16], "0123456789abcdef"[b[|b| - 1] as int % 16]]
  }

  /** The dictionary `encrypt_payload` returns on success. */
  datatype EncryptedResult = EncryptedResult(encryptedData: string, timestamp: int, status: string, dataSize: int)

  class LiveDataEncryptor {
    const runCode: string
    var config: Option<Config>
    const outputFile: string
    const maxDataSize: int := MaxDataSize

    /** `hashlib.sha256(m).digest()`. */
    const sha256: Bytes -> Digest
    /** `hmac.new(key, m, hashlib.sha256).digest()`, given `(key, m)`. */
    const hmacSha256: (Bytes, Bytes) -> Digest
    /** `hashlib.pbkdf2_hmac('sha256', password, salt, iterations)`. */
    const pbkdf2HmacSha256: (Bytes, Bytes, int) -> Digest
    /** `base64.b64encode(b).decode('ascii')`. */
    const base64Encode: Bytes -> string

    /** `__init__`, with the 25 random bytes of `secrets.token_hex(25)`. */
    constructor (runCode: string, token: Bytes, sha256: Bytes -> Digest, hmacSha256: (Bytes, Bytes) -> Digest,
                 pbkdf2HmacSha256: (Bytes, Bytes, int) -> Digest, base64Encode: Bytes -> string)
      requires |token| == 25
      ensures this.runCode == runCode && config == None
      ensures outputFile == Hex(token) + ".json" && |outputFile| == 55
      ensures this.sha256 == sha256 && this.hmacSha256 == hmacSha256
      ensures this.pbkdf2HmacSha256 == pbkdf2HmacSha256 && this.base64Encode == base64Encode
    {
      this.runCode := runCode;
      config := None;
      outputFile := Hex(token) + ".json";
      this.sha256 := sha256;
      this.hmacSha256 := hmacSha256;
      this.pbkdf2HmacSha256 := pbkdf2HmacSha256;
      this.base64Encode := base64Encode;
    }

    /** `fetch_remote_config`, given the parsed response (`None` where the
        request or the JSON decoding fails): the configuration is taken
        only when it has every required key. */
    method FetchRemoteConfig(response: Option<Config>) returns (ok: bool)
      modifies this`config
      ensures ok <==> response.Some? && forall i :: 0 <= i < |RequiredKeys| ==> RequiredKeys[i] in response.value
      ensures config == if ok then response else old(config)
    {
      if response.None? {
        return false;
      }
      var configData := response.value;
      for i := 0 to |RequiredKeys|
        invariant forall j :: 0 <= j < i ==> RequiredKeys[j] in configData
      {
        if RequiredKeys[i] !in configData {
          return false;
        }
      }
      config := response;
      ok := true;
    }

    /** `generate_deterministic_key`: `None` where it raises (no
        configuration, a missing or non-integer or out-of-range
        `key_iterations`, a missing identifier or version). */
    function DeterministicKey(seed: string, salt: Bytes, purpose: string): (key: Option<Digest>)
      reads this
      ensures key.Some? ==> config.Some? && "key_iterations" in config.value
    {
      if config.None? then None
      else
        var c := config.value;
        if "app_identifier" !in c || "version" !in c || "key_iterations" !in c then None
        else match c["key_iterations"]
          case Text(_) => None
          case Number(iterations) =>
            if iterations < 1 || iterations > 0x7fff_ffff then None
            else
              var combined := Utf8(seed + ":" + Render(c["app_identifier"]) + ":" + Render(c["version"]) + ":" + purpose);
              Some(pbkdf2HmacSha256(combined, salt, iterations)[..32])
    }

    /** `hashlib.sha256(key + iv).digest()`. */
    function KeyHash(key: Bytes, iv: Bytes): Digest {
      sha256(key + iv)
    }

    /** The byte XORed into position `i`: the first byte of
        `sha256(key_hash + struct.pack('<I', i))`. */
    function PositionKey(keyHash: Digest, i: nat): bv8
      requires i < 0x1_0000_0000
    {
      sha256(keyHash + PackU32(i as bv32))[0]
    }

    /** The output of `stream_encrypt`. */
    function StreamCipher(data: Bytes, key: Bytes, iv: Bytes): (r: Bytes)
      requires |data| <= 0x1_0000_0000
      ensures |r| == |data|
    {
      var keyHash := KeyHash(key, iv);
      seq(|data|, i requires 0 <= i < |data| => data[i] ^ PositionKey(keyHash, i))
    }

    /** `stream_encrypt`: one byte at a time. */
    method StreamEncrypt(data: Bytes, key: Bytes, iv: Bytes) returns (result: Bytes)
      requires |data| <= 0x1_0000_0000
      ensures result == StreamCipher(data, key, iv)
    {
      result := [];
      var keyHash := sha256(key + iv);
      for i := 0 to |data|
        invariant |result| == i
        invariant forall j :: 0 <= j < i ==> result[j] == data[j] ^ PositionKey(keyHash, j)
      {
        var posKey := sha256(keyHash + PackU32(i as bv32))[0];
        assert posKey == PositionKey(keyHash, i);
        result := result + [data[i] ^ posKey];
      }
    }

    /** IV ‖ layer-2 ciphertext ‖ tag for a plaintext. */
    function FramedPayload(key1: Bytes, key2: Bytes, hmacKey: Bytes, iv: Bytes, plain: Bytes): (payload: Bytes)
      requires |plain| <= 0x1_0000_0000
    {
      var encrypted := StreamCipher(StreamCipher(plain, key1, iv), key2, iv);
      iv + encrypted + hmacSha256(hmacKey, iv + encrypted)
    }

    /** What `encrypt_payload` returns for the JSON encoding `jsonBytes`,
        the IV, and the clock read for the time stamp and for the result. */
    function Encryption(jsonBytes: Bytes, iv: Bytes, packClock: int, resultClock: int): Option<EncryptedResult>
      reads this
    {
      if |jsonBytes| > maxDataSize then None
      else if config.None? || "app_salt" !in config.value || !config.value["app_salt"].Text? then None
      else if "app_identifier" !in config.value || "version" !in config.value then None
      else
        var appSalt := Utf8(config.value["app_salt"].text);
        var masterSeed := Render(config.value["app_identifier"]) + ":" + Render(config.value["version"]);
        var key1 := DeterministicKey(masterSeed, appSalt, "layer1");
        var key2 := DeterministicKey(masterSeed, appSalt, "layer2");
        var hmacKey := DeterministicKey(masterSeed, appSalt, "hmac");
        if key1.None? || key2.None? || hmacKey.None? then None
        else if !(0 <= packClock < 0x1_0000_0000_0000_0000) then None
        else
          var payload := FramedPayload(key1.value, key2.value, hmacKey.value, iv, PackU64(packClock as bv64) + jsonBytes);
          Some(EncryptedResult(base64Encode(payload), resultClock, "success", |jsonBytes|))
    }

    /** `encrypt_payload`, step by step. */
    method EncryptPayload(jsonBytes: Bytes, iv: Bytes, packClock: int, resultClock: int) returns (result: Option<EncryptedResult>)
      requires |iv| == IvLength
      ensures result == Encryption(jsonBytes, iv, packClock, resultClock)
    {
      if |jsonBytes| > maxDataSize {
        return None;
      }
      if config.None? || "app_salt" !in config.value || !config.value["app_salt"].Text? {
        return None;
      }
      if "app_identifier" !in config.value || "version" !in config.value {
        return None;
      }
      var appSalt := Utf8(config.value["app_salt"].text);
      var masterSeed := Render(config.value["app_identifier"]) + ":" + Render(config.value["version"]);
      var key1 := DeterministicKey(masterSeed, appSalt, "layer1");
      var key2 := DeterministicKey(masterSeed, appSalt, "layer2");
      var hmacKey := DeterministicKey(masterSeed, appSalt, "hmac");
      if key1.None? || key2.None? || hmacKey.None? {
        return None;
      }
      if !(0 <= packClock < 0x1_0000_0000_0000_0000) {
        return None;
      }
      var timestamp := PackU64(packClock as bv64);
      var dataWithTimestamp := timestamp + jsonBytes;
      var encryptedLayer1 := StreamEncrypt(dataWithTimestamp, key1.value, iv);
      var encryptedLayer2 := StreamEncrypt(encryptedLayer1, key2.value, iv);
      var messageToAuth := iv + encryptedLayer2;
      var authTag := hmacSha256(hmacKey.value, messageToAuth);
      var finalPayload := iv + encryptedLayer2 + authTag;
      result := Some(EncryptedResult(base64Encode(finalPayload), resultClock, "success", |jsonBytes|));
    }
  }

  // ----- properties -----

  /** Enciphering twice with the same key and IV gives the data back. */
  lemma StreamCipherInvolution(e: LiveDataEncryptor, data: Bytes, key: Bytes, iv: Bytes)
    requires |data| <= 0x1_0000_0000
    ensures e.StreamCipher(e.StreamCipher(data, key, iv), key, iv) == data
  {
    var once := e.StreamCipher(data, key, iv);
    var twice := e.StreamCipher(once, key, iv);
    forall i | 0 <= i < |data|
      ensures twice[i] == data[i]
    {
      var k := e.PositionKey(e.KeyHash(key, iv), i);
      assert once[i] == data[i] ^ k;
      assert twice[i] == once[i] ^ k;
    }
  }

  /** The payload is the IV, then as many ciphertext bytes as plaintext
      bytes, then the tag over exactly what precedes it; deciphering the
      middle part layer 2 first gives the plaintext back. */
  lemma FramedPayloadLayout(e: LiveDataEncryptor, key1: Bytes, key2: Bytes, hmacKey: Bytes, iv: Bytes, plain: Bytes)
    requires |iv| == IvLength && |plain| <= 0x1_0000_0000
    ensures var payload := e.FramedPayload(key1, key2, hmacKey, iv, plain);
      && |payload| == IvLength + |plain| + TagLength
      && payload[..IvLength] == iv
      && payload[|payload| - TagLength..] == e.hmacSha256(hmacKey, payload[..|payload| - TagLength])
      && e.StreamCipher(e.StreamCipher(payload[IvLength..|payload| - TagLength], key2, iv), key1, iv) == plain
  {
    var once := e.StreamCipher(plain, key1, iv);
    var encrypted := e.StreamCipher(once, key2, iv);
    var payload := e.FramedPayload(key1, key2, hmacKey, iv, plain);
    assert payload[..IvLength] == iv;
    assert payload[..|payload| - TagLength] == iv + encrypted;
    assert payload[IvLength..|payload| - TagLength] == encrypted;
    StreamCipherInvolution(e, once, key2, iv);
    StreamCipherInvolution(e, plain, key1, iv);
  }

  /** `encrypt_payload` refuses data over 10 MiB and needs a loaded
      configuration; on success it reports the JSON length, `"success"`,
      the second clock reading, and the Base64 of a payload of
      16 + 8 + length + 32 bytes: the packed time stamp and the JSON bytes
      enciphered under the `layer1` and `layer2` keys and tagged under the
      `hmac` key, all three derived from the configuration's salt,
      identifier and version; deciphering with those keys gives the
      packed time stamp and the JSON bytes back. */
  lemma EncryptionResult(e: LiveDataEncryptor, jsonBytes: Bytes, iv: Bytes, packClock: int, resultClock: int)
    requires |iv| == IvLength
    ensures |jsonBytes| > MaxDataSize ==> e.Encryption(jsonBytes, iv, packClock, resultClock) == None
    ensures e.config == None ==> e.Encryption(jsonBytes, iv, packClock, resultClock) == None
    ensures var r := e.Encryption(jsonBytes, iv, packClock, resultClock);
      r.Some? ==>
        && r.value.dataSize == |jsonBytes| <= MaxDataSize
        && r.value.status == "success" && r.value.timestamp == resultClock
        && 0 <= packClock < 0x1_0000_0000_0000_0000
        && e.config.Some?
        && "app_salt" in e.config.value && e.config.value["app_salt"].Text?
        && "app_identifier" in e.config.value && "version" in e.config.value
        && var c := e.config.value;
           var seed := Render(c["app_identifier"]) + ":" + Render(c["version"]);
           var salt := Utf8(c["app_salt"].text);
           var key1 := e.DeterministicKey(seed, salt, "layer1");
           var key2 := e.DeterministicKey(seed, salt, "layer2");
           var hmacKey := e.DeterministicKey(seed, salt, "hmac");
           && key1.Some? && key2.Some? && hmacKey.Some?
           && var plain := PackU64(packClock as bv64) + jsonBytes;
              var payload := e.FramedPayload(key1.value, key2.value, hmacKey.value, iv, plain);
              && r.value.encryptedData == e.base64Encode(payload)
              && |payload| == IvLength + TimestampLength + |jsonBytes| + TagLength
              && payload[|payload| - TagLength..] == e.hmacSha256(hmacKey.value, payload[..|payload| - TagLength])
              && e.StreamCipher(e.StreamCipher(payload[IvLength..|payload| - TagLength], key2.value, iv), key1.value, iv) == plain
  {
    var r := e.Encryption(jsonBytes, iv, packClock, resultClock);
    if r.Some? {
      var c := e.config.value;
      var appSalt := Utf8(c["app_salt"].text);
      var masterSeed := Render(c["app_identifier"]) + ":" + Render(c["version"]);
      var key1 := e.DeterministicKey(masterSeed, appSalt, "layer1").value;
      var key2 := e.DeterministicKey(masterSeed, appSalt, "layer2").value;
      var hmacKey := e.DeterministicKey(masterSeed, appSalt, "hmac").value;
      var plain := PackU64(packClock as bv64) + jsonBytes;
      FramedPayloadLayout(e, key1, key2, hmacKey, iv, plain);
    }
  }
}
