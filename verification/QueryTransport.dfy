/** How an encrypted query travels: framed, in base64, cut into 32-byte words for the contract's
    request data, joined again by the relay, and unpacked by the enclave. */
module QueryTransport {
  import opened ByteStrings
  import opened Wrappers
  import opened Encoding
  import Base64

  const USER_PUBKEY_LEN := 65
  const AES_IV_LEN := 32
  const GCM_TAG_LEN := 16
  const HEADER_LEN := USER_PUBKEY_LEN + AES_IV_LEN + GCM_TAG_LEN

  datatype HybridCiphertext = HybridCiphertext(userPubkey: Bytes, aesIv: Bytes, gcmTag: Bytes, data: Bytes) {
    predicate Valid() {
      |userPubkey| == USER_PUBKEY_LEN && |aesIv| == AES_IV_LEN && |gcmTag| == GCM_TAG_LEN
    }

    function Frame(): Bytes { userPubkey + aesIv + gcmTag + data }
  }

  method Encode(c: HybridCiphertext) returns (text: Bytes)
    requires c.Valid()
    ensures text == Base64.Encode(c.Frame())
    ensures |text| + 1 <= 2 * |c.Frame()|  // the text and its terminator fit the buffer
  {
    var tmp := new Buffer();
    tmp.Append(c.userPubkey);
    tmp.Append(c.aesIv);
    tmp.Append(c.gcmTag);
    tmp.Append(c.data);
    assert tmp.elems == c.Frame();
    text := Base64.Encode(tmp.elems);
    Base64.EncodedText(tmp.elems);
  }

  /** Why a query cannot be read. The source does not look at a frame's length: for a frame shorter
      than its header it has no defined result. */
  datatype QueryError = NotBase64 | ShortFrame | NotAuthentic

  method Decode(text: Bytes) returns (result: Result<HybridCiphertext, QueryError>)
    ensures match Base64.Decode(text)
      case None => result == Failure(NotBase64)
      case Some(frame) =>
        if |frame| < HEADER_LEN then result == Failure(ShortFrame)
        else result == Success(HybridCiphertext(frame[..65], frame[65..97], frame[97..113], frame[113..]))
  {
    match Base64.Decode(text)
    case None =>
      return Failure(NotBase64);
    case Some(pcipher) =>
      if |pcipher| < HEADER_LEN {
        return Failure(ShortFrame);
      }
      var cipher := 0;
      var userPubkey := pcipher[cipher..cipher + USER_PUBKEY_LEN];
      cipher := cipher + USER_PUBKEY_LEN;
      var aesIv := pcipher[cipher..cipher + AES_IV_LEN];
      cipher := cipher + AES_IV_LEN;
      var gcmTag := pcipher[cipher..cipher + GCM_TAG_LEN];
      cipher := cipher + GCM_TAG_LEN;
      var data := pcipher[cipher..cipher + |pcipher| - HEADER_LEN];
      assert data == pcipher[HEADER_LEN..];
      return Success(HybridCiphertext(userPubkey, aesIv, gcmTag, data));
  }

  /** A frame is its four parts, and can be read in one way only. */
  lemma {:induction false} FrameParts(c: HybridCiphertext, frame: Bytes)
    requires c.Valid()
    ensures c.Frame() == frame <==>
      |frame| >= HEADER_LEN && c == HybridCiphertext(frame[..65], frame[65..97], frame[97..113], frame[113..])
  {
    if c.Frame() == frame {
      assert frame[..65] == c.userPubkey;
      assert frame[65..97] == c.aesIv;
      assert frame[97..113] == c.gcmTag;
      assert frame[113..] == c.data;
    }
    if |frame| >= HEADER_LEN {
      assert frame == frame[..65] + frame[65..97] + frame[97..113] + frame[113..];
    }
  }

  // ---- words ----

  /** `[s[i:i+32] for i in range(0, len(s), 32)]` */
  function Chunks(s: Bytes): (cs: seq<Bytes>)
    ensures forall i :: 0 <= i < |cs| ==> |cs[i]| <= 32
  {
    if s == [] then []
    else if |s| <= 32 then [s]
    else [s[..32]] + Chunks(s[32..])
  }

  /** A chunk as a bytes32 argument. */
  function ToWord(chunk: Bytes): Word
    requires |chunk| <= 32
  {
    chunk + Zeros(32 - |chunk|)
  }

  function ToWords(s: Bytes): seq<Word> {
    var cs := Chunks(s);
    seq(|cs|, i requires 0 <= i < |cs| => ToWord(cs[i]))
  }

  /** What a C string keeps of a byte string. */
  function CutAtNul(s: Bytes): (c: Bytes)
    ensures c <= s && 0 !in c && (|c| < |s| ==> s[|c|] == 0)
  {
    if s == [] || s[0] == 0 then [] else [s[0]] + CutAtNul(s[1..])
  }

  /** Joining the words gives the text back, with zeros after it. */
  lemma {:induction false} JoinedWords(s: Bytes)
    ensures exists n :: 0 <= n < 32 && Flatten(ToWords(s)) == s + Zeros(n)
  {
    if s == [] {
      assert Flatten(ToWords(s)) == s + Zeros(0);
    } else if |s| <= 32 {
      assert ToWords(s) == [ToWord(s)];
      assert ToWords(s)[1..] == [];
      assert Flatten(ToWords(s)) == s + Zeros(32 - |s|);
    } else {
      JoinedWords(s[32..]);
      var n :| 0 <= n < 32 && Flatten(ToWords(s[32..])) == s[32..] + Zeros(n);
      assert ToWords(s)[0] == s[..32];
      assert ToWords(s)[1..] == ToWords(s[32..]);
      assert Flatten(ToWords(s)) == s + Zeros(n);
    }
  }

  lemma {:induction false} CutPadded(s: Bytes, n: nat)
    ensures CutAtNul(s + Zeros(n)) == s <==> 0 !in s
  {
    if s == [] {
      assert s + Zeros(n) == Zeros(n);
    } else {
      assert (s + Zeros(n))[1..] == s[1..] + Zeros(n);
      CutPadded(s[1..], n);
      assert s == [s[0]] + s[1..];
    }
  }

  /** A text survives the words exactly when it contains no NUL. */
  lemma {:induction false} TransportIff(s: Bytes)
    ensures CutAtNul(Flatten(ToWords(s))) == s <==> 0 !in s
  {
    JoinedWords(s);
    var n :| 0 <= n < 32 && Flatten(ToWords(s)) == s + Zeros(n);
    CutPadded(s, n);
  }

  /** What the enclave reads off the joined request data. */
  function Received(data: Bytes): Option<Bytes> { Base64.Decode(CutAtNul(data)) }

  /** Key, initialisation vector, tag and data come back, for every length of data. */
  lemma {:induction false} QueryRoundTrip(c: HybridCiphertext)
    requires c.Valid()
    ensures Received(Flatten(ToWords(Base64.Encode(c.Frame())))) == Some(c.Frame())
  {
    Base64.EncodedText(c.Frame());
    TransportIff(Base64.Encode(c.Frame()));
    Base64.DecodeEncode(c.Frame());
  }

  // ---- encryption ----

  /** Key agreement and authenticated encryption, as the two libraries promise them. */
  datatype Crypto = Crypto(
    pubkey: Bytes -> Bytes,
    shared: (Bytes, Bytes) -> Bytes,
    seal: (Bytes, Bytes, Bytes) -> (Bytes, Bytes),
    open: (Bytes, Bytes, Bytes, Bytes) -> Option<Bytes>)
  {
    ghost predicate Lawful() {
      && (forall a :: |pubkey(a)| == USER_PUBKEY_LEN)
      && (forall a, b :: shared(a, pubkey(b)) == shared(b, pubkey(a)))
      && (forall key, iv, m :: |seal(key, iv, m).0| == GCM_TAG_LEN
            && open(key, iv, seal(key, iv, m).1, seal(key, iv, m).0) == Some(m))
    }
  }

  const IV: Bytes := [0x99] + Zeros(31)

  function HybridEncrypt(x: Crypto, tcPubkey: Bytes, ephemeral: Bytes, message: Bytes): HybridCiphertext {
    var key := x.shared(ephemeral, tcPubkey);
    var (tag, data) := x.seal(key, IV, message);
    HybridCiphertext(x.pubkey(ephemeral), IV, tag, data)
  }

  /** Decrypts a query from joined request data. */
  method DecryptQuery(x: Crypto, secret: Bytes, requestData: Bytes) returns (message: Result<Bytes, QueryError>)
    ensures message == Failure(NotBase64) <==> Received(requestData).None?
    ensures message == Failure(ShortFrame) <==> Received(requestData).Some? && |Received(requestData).value| < HEADER_LEN
    ensures forall c: HybridCiphertext :: c.Valid() && Received(requestData) == Some(c.Frame()) ==>
      var plain := x.open(x.shared(secret, c.userPubkey), c.aesIv, c.data, c.gcmTag);
      message == if plain.Some? then Success(plain.value) else Failure(NotAuthentic)
  {
    var decoded := Decode(CutAtNul(requestData));
    if decoded.Failure? {
      return Failure(decoded.error);
    }
    var c := decoded.value;
    forall d: HybridCiphertext | d.Valid() && Received(requestData) == Some(d.Frame())
      ensures d == c
    {
      FrameParts(d, d.Frame());
    }
    var plain := x.open(x.shared(secret, c.userPubkey), c.aesIv, c.data, c.gcmTag);
    return if plain.Some? then Success(plain.value) else Failure(NotAuthentic);
  }

  /** What DecryptQuery is specified to return on an encrypted query is the message. */
  lemma {:induction false} EncryptedQueryRoundTrip(x: Crypto, secret: Bytes, ephemeral: Bytes, message: Bytes)
    requires x.Lawful()
    ensures var c := HybridEncrypt(x, x.pubkey(secret), ephemeral, message);
      && c.Valid() && Received(Flatten(ToWords(Base64.Encode(c.Frame())))) == Some(c.Frame())
      && x.open(x.shared(secret, c.userPubkey), c.aesIv, c.data, c.gcmTag) == Some(message)
      && c.userPubkey == x.pubkey(ephemeral) && c.aesIv == [0x99] + Zeros(31)
  {
    var c := HybridEncrypt(x, x.pubkey(secret), ephemeral, message);
    QueryRoundTrip(c);
  }
}
