/** Texts as lists of field elements, and the envelope an encrypted text travels in. */
module Metadata {
  import opened Prelude
  import opened Positional
  import opened Decimal
  import opened Utf8

  const CHUNK_SIZE: nat := Pow(2, 250)

  /** The value of chunks, least significant first. */
  function ChunksValue(chunks: seq<nat>, size: nat): nat {
    if chunks == [] then 0 else chunks[0] + size * ChunksValue(chunks[1..], size)
  }

  /** The only shape splitting produces: chunks below the size, no zero chunk on top unless alone. */
  predicate Canonical(chunks: seq<nat>, size: nat) {
    && AllBelow(chunks, size)
    && chunks != []
    && (|chunks| > 1 ==> chunks[|chunks| - 1] != 0)
  }

  lemma ChunkSizeFits()
    ensures 2 <= CHUNK_SIZE
  {
    PowPositive(2, 249);
    assert CHUNK_SIZE == 2 * Pow(2, 249);
  }

  lemma {:induction false} ValueAppend(chunks: seq<nat>, d: nat, size: nat)
    ensures ChunksValue(chunks + [d], size) == ChunksValue(chunks, size) + Pow(size, |chunks|) * d
  {
    if chunks == [] {
      assert [] + [d] == [d];
    } else {
      assert (chunks + [d])[1..] == chunks[1..] + [d];
      ValueAppend(chunks[1..], d, size);
      Distribute(1, ChunksValue(chunks[1..], size), Pow(size, |chunks| - 1) * d, size);
      assert size * (Pow(size, |chunks| - 1) * d) == size * Pow(size, |chunks| - 1) * d;
    }
  }

  lemma SplitStep(p: nat, remaining: nat, size: nat)
    requires size >= 2
    ensures p * remaining == p * (remaining % size) + size * p * (remaining / size)
  {
    DivMod(remaining, size);
    assert p * ((remaining / size) * size + remaining % size)
           == p * ((remaining / size) * size) + p * (remaining % size);
    assert p * ((remaining / size) * size) == size * p * (remaining / size);
  }

  /** The chunks so far, and what is left to split, make up the number. */
  predicate SplitSoFar(chunks: seq<nat>, size: nat, total: nat, remaining: nat) {
    && AllBelow(chunks, size)
    && ChunksValue(chunks, size) + Pow(size, |chunks|) * remaining == total
    && (remaining == 0 ==> chunks != [] && chunks[|chunks| - 1] != 0)
  }

  lemma SplitMore(chunks: seq<nat>, size: nat, total: nat, remaining: nat)
    requires size >= 2 && remaining > 0 && SplitSoFar(chunks, size, total, remaining)
    ensures 0 <= remaining / size < remaining && remaining % size >= 0
    ensures SplitSoFar(chunks + [remaining % size], size, total, remaining / size)
  {
    DivMod(remaining, size);
    ValueAppend(chunks, remaining % size, size);
    SplitStep(Pow(size, |chunks|), remaining, size);
  }

  lemma SplitNone(size: nat, total: nat)
    requires total > 0
    ensures SplitSoFar([], size, total, total)
  {
    assert ChunksValue([], size) + Pow(size, 0) * total == total;
  }

  lemma SplitDone(chunks: seq<nat>, size: nat, total: nat)
    requires SplitSoFar(chunks, size, total, 0)
    ensures Canonical(chunks, size) && ChunksValue(chunks, size) == total
  {
    assert Pow(size, |chunks|) * 0 == 0;
  }

  /** The chunks of a number, least significant first. */
  method SplitBy(total: nat, chunkSize: nat) returns (chunks: seq<nat>)
    requires chunkSize >= 2
    ensures Canonical(chunks, chunkSize) && ChunksValue(chunks, chunkSize) == total
  {
    if total == 0 {
      return [0];
    }
    chunks := [];
    var remaining: nat := total;
    SplitNone(chunkSize, total);
    while remaining > 0
      invariant SplitSoFar(chunks, chunkSize, total, remaining)
      decreases remaining
    {
      SplitMore(chunks, chunkSize, total, remaining);
      chunks := chunks + [remaining % chunkSize];
      remaining := remaining / chunkSize;
    }
    SplitDone(chunks, chunkSize, total);
  }

  method SplitIntoBigIntChunks(decimal: string) returns (chunks: seq<nat>)
    requires AllDigits(decimal)
    ensures Canonical(chunks, Pow(2, 250))
    ensures ChunksValue(chunks, Pow(2, 250)) == Value(decimal)
  {
    ChunkSizeFits();
    chunks := SplitBy(Value(decimal), CHUNK_SIZE);
  }

  method CombineFromBigIntChunks(chunks: seq<nat>) returns (result: nat)
    ensures result == ChunksValue(chunks, Pow(2, 250))
  {
    var chunkSize := CHUNK_SIZE;
    result := 0;
    for i := |chunks| downto 0
      invariant result == ChunksValue(chunks[i..], chunkSize)
    {
      assert chunks[i..][1..] == chunks[i + 1..];
      result := result * chunkSize + chunks[i];
    }
  }

  /** A number has one canonical split, so combining is undone by splitting. */
  lemma {:induction false} SplitIsUnique(a: seq<nat>, b: seq<nat>, size: nat)
    requires size >= 2 && Canonical(a, size) && Canonical(b, size)
    requires ChunksValue(a, size) == ChunksValue(b, size)
    ensures a == b
  {
    var x, y := ChunksValue(a[1..], size), ChunksValue(b[1..], size);
    assert x * size + a[0] == y * size + b[0];
    DivModUnique(x, a[0], size);
    DivModUnique(y, b[0], size);
    assert a == [a[0]] + a[1..] && b == [b[0]] + b[1..];
    assert |a| == 1 ==> x == 0;
    assert |b| == 1 ==> y == 0;
    if |a| > 1 {
      TopIsPositive(a[1..], size);
    }
    if |b| > 1 {
      TopIsPositive(b[1..], size);
    }
    if |a| > 1 && |b| > 1 {
      SplitIsUnique(a[1..], b[1..], size);
    }
  }

  lemma {:induction false} TopIsPositive(chunks: seq<nat>, size: nat)
    requires size >= 2 && chunks != [] && chunks[|chunks| - 1] != 0
    ensures ChunksValue(chunks, size) > 0
  {
    if |chunks| > 1 {
      TopIsPositive(chunks[1..], size);
      MulMonotone(0, ChunksValue(chunks[1..], size), size);
    }
  }

  // ---------- Text ----------

  /** The number of a text: its UTF-8 bytes in base 256. */
  function TextNumber(s: string): nat {
    ValueOf(Encode(s), 256)
  }

  function RemoveNuls(s: string): string {
    if s == "" then "" else (if s[0] == '\0' then "" else [s[0]]) + RemoveNuls(s[1..])
  }

  /** The text of a number: its bytes decoded, NUL characters removed. */
  function NumberText(n: nat): string {
    RemoveNuls(Decode(ByteDigits(n)))
  }

  method Str2Int(s: string) returns (chunks: seq<nat>, length: nat)
    ensures Canonical(chunks, CHUNK_SIZE) && length == |chunks|
    ensures ChunksValue(chunks, CHUNK_SIZE) == TextNumber(s)
  {
    if s == "" {
      ChunkSizeFits();
      return [0], 1;
    }
    var hexString := BytesHex(Encode(s));
    BytesHexValue(Encode(s));
    var result := if hexString == "" then 0 else HexValue(hexString);
    DecimalValue(result);
    chunks := SplitIntoBigIntChunks(ToDecimal(result));
    length := |chunks|;
  }

  method Int2Str(input: seq<nat>) returns (text: string)
    ensures text == NumberText(ChunksValue(input, CHUNK_SIZE))
  {
    if |input| == 1 && input[0] == 0 {
      assert ChunksValue(input, CHUNK_SIZE) == 0 + CHUNK_SIZE * 0;
      return "";
    }
    var decimal := CombineFromBigIntChunks(input);
    if decimal == 0 {
      return "";
    }
    var hex := HexText(Digits(decimal, 16));
    if |hex| % 2 != 0 {
      hex := "0" + hex;
    }
    EvenHexIsBytes(decimal);
    BytesHexRoundTrip(ByteDigits(decimal));
    var buf := HexBytes(hex);
    text := RemoveNuls(Decode(buf));
  }

  lemma {:induction false} RemoveLeadingNuls(s: string)
    ensures RemoveNuls(DropLeadingNuls(s)) == RemoveNuls(s)
  {
    if s != "" && s[0] == '\0' {
      RemoveLeadingNuls(s[1..]);
    }
  }

  /** Only NUL characters are lost on the way through a number. */
  lemma TextRoundTrip(s: string)
    ensures NumberText(TextNumber(s)) == RemoveNuls(s)
  {
    ValueDigits(Encode(s), 256);
    LeadingZeros(s);
    DecodeUndoesEncode(DropLeadingNuls(s));
    RemoveLeadingNuls(s);
  }

  lemma {:induction false} RemoveNulsIdentity(s: string)
    ensures |RemoveNuls(s)| <= |s|
    ensures RemoveNuls(s) == s <==> '\0' !in s
  {
    if s != "" {
      RemoveNulsIdentity(s[1..]);
      assert s == [s[0]] + s[1..];
      if s[0] != '\0' {
        assert RemoveNuls(s)[1..] == RemoveNuls(s[1..]);
      }
    }
  }

  /** A text survives exactly when it holds no NUL character. */
  lemma TextSurvivesIff(s: string)
    ensures NumberText(TextNumber(s)) == s <==> '\0' !in s
  {
    TextRoundTrip(s);
    RemoveNulsIdentity(s);
  }

  /** Two texts share a number exactly when they differ only in leading NUL characters. */
  lemma SameNumberIff(s: string, t: string)
    ensures TextNumber(s) == TextNumber(t) <==> DropLeadingNuls(s) == DropLeadingNuls(t)
  {
    ValueDigits(Encode(s), 256);
    ValueDigits(Encode(t), 256);
    LeadingZeros(s);
    LeadingZeros(t);
    DecodeUndoesEncode(DropLeadingNuls(s));
    DecodeUndoesEncode(DropLeadingNuls(t));
    StrippedValue(Encode(s));
    StrippedValue(Encode(t));
  }

  lemma StrippedValue(ds: seq<nat>)
    requires AllBelow(ds, 256)
    ensures ValueOf(StripZeros(ds), 256) == ValueOf(ds, 256)
  {
    ValueDigits(ds, 256);
    DigitsValue(ValueOf(ds, 256), 256);
  }

  // ---------- The envelope of an encrypted text ----------

  datatype Envelope = Envelope(length: nat, nonce: nat, authKey0: nat, authKey1: nat, ciphertext: seq<nat>)

  /** Thirty-two bytes: a larger number has no such word. */
  predicate FitsWord(n: nat) {
    n < Pow(16, 64)
  }

  function Word(n: nat): (s: string)
    ensures |s| == 64
  {
    HexText(FixedDigits(n, 16, 64))
  }

  function Words(ns: seq<nat>): string {
    if ns == [] then "" else Word(ns[0]) + Words(ns[1..])
  }

  function Numbers(e: Envelope): seq<nat> {
    [e.length, e.nonce, e.authKey0, e.authKey1] + e.ciphertext
  }

  function EncodeEnvelope(e: Envelope): Option<string> {
    if forall i :: 0 <= i < |Numbers(e)| ==> FitsWord(Numbers(e)[i]) then Some("0x" + Words(Numbers(e))) else None
  }

  /** The number after an 0x prefix: digits are required. */
  function ReadNumber(hex: string): Option<nat> {
    if hex == "" || !IsHex(hex) then None else Some(HexValue(hex))
  }

  /** Slicing past the end of a text gives what is there. */
  function SliceText(s: string, from: nat, to: nat): (r: string)
    requires from <= to
  {
    var start, end := Min(from, |s|), Min(to, |s|);
    s[start..end]
  }

  function After(words: seq<nat>, others: Option<seq<nat>>): Option<seq<nat>> {
    if others.None? then None else Some(words + others.value)
  }

  function ReadWords(hex: string): Option<seq<nat>>
    decreases |hex|
  {
    if hex == "" then Some([])
    else
      var first := ReadNumber(SliceText(hex, 0, 64));
      if first.None? then None
      else
        var others := ReadWords(hex[Min(64, |hex|)..]);
        After([first.value], others)
  }

  function WithoutPrefix(text: string): string {
    if "0x" <= text then text[2..] else text
  }

  function DecodeEnvelope(text: string): Option<Envelope> {
    var hexData := WithoutPrefix(text);
    var length, nonce := ReadNumber(SliceText(hexData, 0, 64)), ReadNumber(SliceText(hexData, 64, 128));
    var auth0, auth1 := ReadNumber(SliceText(hexData, 128, 192)), ReadNumber(SliceText(hexData, 192, 256));
    var ciphertext := ReadWords(hexData[Min(256, |hexData|)..]);
    if length.None? || nonce.None? || auth0.None? || auth1.None? || ciphertext.None? then None
    else Some(Envelope(length.value, nonce.value, auth0.value, auth1.value, ciphertext.value))
  }

  lemma AfterAppend(words: seq<nat>, word: nat, others: Option<seq<nat>>)
    ensures After(words, After([word], others)) == After(words + [word], others)
  {
    if others.Some? {
      assert words + ([word] + others.value) == (words + [word]) + others.value;
    }
  }

  /** A slice after i characters is a slice of what they leave. */
  lemma SliceOfRest(text: string, i: nat)
    requires i < |text|
    ensures SliceText(text, i, i + 64) == SliceText(text[i..], 0, 64)
    ensures text[Min(i + 64, |text|)..] == text[i..][Min(64, |text[i..]|)..]
  {
  }

  /** The loop over the ciphertext's words. */
  method ReadCiphertext(ciphertextHex: string) returns (ciphertext: Option<seq<nat>>)
    ensures ciphertext == ReadWords(ciphertextHex)
  {
    var words: seq<nat> := [];
    var i := 0;
    assert ciphertextHex[0..] == ciphertextHex;
    assert ReadWords(ciphertextHex).Some? ==> [] + ReadWords(ciphertextHex).value == ReadWords(ciphertextHex).value;
    while i < |ciphertextHex|
      invariant 0 <= i
      invariant ReadWords(ciphertextHex) == After(words, ReadWords(ciphertextHex[Min(i, |ciphertextHex|)..]))
    {
      ghost var hex := ciphertextHex[i..];
      SliceOfRest(ciphertextHex, i);
      var chunk := ReadNumber(SliceText(ciphertextHex, i, i + 64));
      if chunk.None? {
        return None;
      }
      AfterAppend(words, chunk.value, ReadWords(hex[Min(64, |hex|)..]));
      words := words + [chunk.value];
      i := i + 64;
    }
    assert words + [] == words;
    ciphertext := Some(words);
  }

  lemma WordRoundTrip(n: nat)
    requires FitsWord(n)
    ensures ReadNumber(Word(n)) == Some(n)
  {
    HexRoundTrip(FixedDigits(n, 16, 64));
    FixedValue(n, 16, 64);
  }

  lemma {:induction false} WordsRoundTrip(ns: seq<nat>)
    requires forall i :: 0 <= i < |ns| ==> FitsWord(ns[i])
    ensures ReadWords(Words(ns)) == Some(ns)
  {
    if ns != [] {
      WordRoundTrip(ns[0]);
      WordsRoundTrip(ns[1..]);
      var hex := Words(ns);
      assert SliceText(hex, 0, 64) == Word(ns[0]);
      assert hex[Min(64, |hex|)..] == Words(ns[1..]);
      assert [ns[0]] + ns[1..] == ns;
    }
  }

  lemma WordsCons(n: nat, ns: seq<nat>)
    ensures Words([n] + ns) == Word(n) + Words(ns)
  {
    assert ([n] + ns)[1..] == ns;
  }

  lemma EnvelopeWords(e: Envelope)
    ensures Words(Numbers(e))
            == Word(e.length) + (Word(e.nonce) + (Word(e.authKey0) + (Word(e.authKey1) + Words(e.ciphertext))))
  {
    var three := [e.authKey1] + e.ciphertext;
    var two := [e.authKey0] + three;
    var one := [e.nonce] + two;
    assert Numbers(e) == [e.length] + one;
    WordsCons(e.length, one);
    WordsCons(e.nonce, two);
    WordsCons(e.authKey0, three);
    WordsCons(e.authKey1, e.ciphertext);
  }

  lemma Slices(a: string, b: string, c: string, d: string, rest: string)
    requires |a| == |b| == |c| == |d| == 64
    ensures var s := a + (b + (c + (d + rest)));
            SliceText(s, 0, 64) == a && SliceText(s, 64, 128) == b && SliceText(s, 128, 192) == c
            && SliceText(s, 192, 256) == d && |s| >= 256 && s[256..] == rest
  {
  }

  /** Hexadecimal digits never start with an 0x prefix. */
  lemma WordsHaveNoPrefix(n: nat, rest: string)
    ensures !("0x" <= Word(n) + rest)
  {
    HexRoundTrip(FixedDigits(n, 16, 64));
    assert HexDigit('x').None?;
    assert (Word(n) + rest)[1] == Word(n)[1];
  }

  lemma DecodeParts(text: string, hexData: string, e: Envelope)
    requires WithoutPrefix(text) == hexData && |hexData| >= 256
    requires ReadNumber(SliceText(hexData, 0, 64)) == Some(e.length)
    requires ReadNumber(SliceText(hexData, 64, 128)) == Some(e.nonce)
    requires ReadNumber(SliceText(hexData, 128, 192)) == Some(e.authKey0)
    requires ReadNumber(SliceText(hexData, 192, 256)) == Some(e.authKey1)
    requires ReadWords(hexData[256..]) == Some(e.ciphertext)
    ensures DecodeEnvelope(text) == Some(e)
  {
  }

  lemma PartsRoundTrip(e: Envelope)
    requires EncodeEnvelope(e).Some?
    ensures ReadNumber(Word(e.length)) == Some(e.length) && ReadNumber(Word(e.nonce)) == Some(e.nonce)
    ensures ReadNumber(Word(e.authKey0)) == Some(e.authKey0) && ReadNumber(Word(e.authKey1)) == Some(e.authKey1)
    ensures ReadWords(Words(e.ciphertext)) == Some(e.ciphertext)
  {
    var ns := Numbers(e);
    assert FitsWord(ns[0]) && FitsWord(ns[1]) && FitsWord(ns[2]) && FitsWord(ns[3]);
    WordRoundTrip(e.length);
    WordRoundTrip(e.nonce);
    WordRoundTrip(e.authKey0);
    WordRoundTrip(e.authKey1);
    forall i | 0 <= i < |e.ciphertext| ensures FitsWord(e.ciphertext[i]) {
      assert e.ciphertext[i] == ns[i + 4];
    }
    WordsRoundTrip(e.ciphertext);
  }

  /** An envelope is read back whole, with or without its prefix. */
  lemma EnvelopeRoundTrip(e: Envelope)
    requires EncodeEnvelope(e).Some?
    ensures DecodeEnvelope(EncodeEnvelope(e).value) == Some(e)
    ensures DecodeEnvelope(EncodeEnvelope(e).value[2..]) == Some(e)
  {
    var hexData := Words(Numbers(e));
    PartsRoundTrip(e);
    EnvelopeWords(e);
    Slices(Word(e.length), Word(e.nonce), Word(e.authKey0), Word(e.authKey1), Words(e.ciphertext));
    WordsHaveNoPrefix(e.length, Word(e.nonce) + (Word(e.authKey0) + (Word(e.authKey1) + Words(e.ciphertext))));
    assert ("0x" + hexData)[2..] == hexData;
    DecodeParts("0x" + hexData, hexData, e);
    DecodeParts(hexData, hexData, e);
  }

  // ---------- Encryption ----------

  /** The order of the field the cipher works in. */
  const FIELD: nat := 21888242871839275222246405745257275088548364400416034343698204186575808495617

  /** What the cipher is trusted for: decrypting with the right key gives field elements back. */
  ghost predicate Inverse(encrypt: seq<nat> -> Envelope, decrypt: Envelope -> seq<nat>) {
    forall m: seq<nat> :: AllBelow(m, FIELD) ==> Sound(m, encrypt(m), decrypt)
  }

  /** Every number of an envelope but the length is a field element or a nonce of seventeen bytes. */
  ghost predicate Sound(m: seq<nat>, e: Envelope, decrypt: Envelope -> seq<nat>) {
    && e.length == |m|
    && (FitsWord(|m|) ==> EncodeEnvelope(e).Some?)
    && decrypt(e) == m
  }

  lemma Product(m: nat, n: nat, x: nat, y: nat)
    requires Pow(2, m) == x && Pow(2, n) == y
    ensures Pow(2, m + n) == x * y
  {
    PowAdd(2, m, n);
  }

  lemma ChunkSizeBelowField()
    ensures CHUNK_SIZE < FIELD
  {
    var n5, n25, n125 := 32, 33554432, 42535295865117307932921825928971026432;
    assert Pow(2, 5) == 2 * Pow(2, 4) == 4 * Pow(2, 3) == 8 * Pow(2, 2) == 16 * Pow(2, 1) == n5;
    Product(5, 5, n5, n5);
    Product(10, 10, n5 * n5, n5 * n5);
    Product(5, 20, n5, n5 * n5 * (n5 * n5));
    Product(25, 25, n25, n25);
    Product(50, 50, n25 * n25, n25 * n25);
    Product(25, 100, n25, n25 * n25 * (n25 * n25));
    Product(125, 125, n125, n125);
  }

  lemma ChunksAreFieldElements(chunks: seq<nat>)
    requires Canonical(chunks, CHUNK_SIZE)
    ensures AllBelow(chunks, FIELD)
  {
    ChunkSizeBelowField();
  }

  method EncryptMetadata(encrypt: seq<nat> -> Envelope, message: string) returns (text: Option<string>)
    ensures exists chunks: seq<nat> ::
      && Canonical(chunks, CHUNK_SIZE) && ChunksValue(chunks, CHUNK_SIZE) == TextNumber(message)
      && text == EncodeEnvelope(encrypt(chunks).(length := |chunks|))
  {
    var chunks, length := Str2Int(message);
    text := EncodeEnvelope(encrypt(chunks).(length := length));
  }

  method DecryptMetadata(decrypt: Envelope -> seq<nat>, text: string) returns (message: Option<string>)
    ensures message == match DecodeEnvelope(text)
            case None => None
            case Some(e) => Some(NumberText(ChunksValue(decrypt(e), CHUNK_SIZE)))
  {
    var hexData := WithoutPrefix(text);
    var length, nonce := ReadNumber(SliceText(hexData, 0, 64)), ReadNumber(SliceText(hexData, 64, 128));
    var auth0, auth1 := ReadNumber(SliceText(hexData, 128, 192)), ReadNumber(SliceText(hexData, 192, 256));
    if length.None? || nonce.None? || auth0.None? || auth1.None? {
      return None;
    }
    var ciphertext := ReadCiphertext(hexData[Min(256, |hexData|)..]);
    if ciphertext.None? {
      return None;
    }
    var elements := decrypt(Envelope(length.value, nonce.value, auth0.value, auth1.value, ciphertext.value));
    var decoded := Int2Str(elements);
    message := Some(decoded);
  }

  lemma {:induction false} TopWeighs(chunks: seq<nat>, size: nat)
    requires size >= 2 && chunks != [] && chunks[|chunks| - 1] != 0
    ensures ChunksValue(chunks, size) >= Pow(size, |chunks| - 1)
  {
    if |chunks| > 1 {
      TopWeighs(chunks[1..], size);
      Products(size, size, Pow(size, |chunks| - 2), ChunksValue(chunks[1..], size));
    }
  }

  /** A text has no more chunks than bytes, or one. */
  lemma ChunkCount(s: string, chunks: seq<nat>, size: nat)
    requires size >= 256 && Canonical(chunks, size) && ChunksValue(chunks, size) == TextNumber(s)
    ensures |chunks| <= |Encode(s)| + 1
  {
    if |chunks| > |Encode(s)| + 1 {
      TopWeighs(chunks, size);
      PowGrows(size, |Encode(s)|, |chunks| - 1);
      PowBelow(256, size, |Encode(s)|);
      ValueFixed(Encode(s), 256);
    }
  }

  lemma ChunkSizeAboveByte()
    ensures CHUNK_SIZE >= 256
  {
    assert Pow(2, 4) == 2 * Pow(2, 3) == 4 * Pow(2, 2) == 8 * Pow(2, 1) == 16;
    Product(4, 4, 16, 16);
    PowGrows(2, 8, 250);
  }

  /** A message whose length a word can hold comes back from its encrypted text without its NUL characters. */
  method EncryptThenDecrypt(encrypt: seq<nat> -> Envelope, decrypt: Envelope -> seq<nat>, message: string)
    returns (back: Option<string>)
    requires Inverse(encrypt, decrypt) && FitsWord(|Encode(message)| + 1)
    ensures back == Some(RemoveNuls(message))
  {
    var text := EncryptMetadata(encrypt, message);
    ghost var chunks: seq<nat> :|
      && Canonical(chunks, CHUNK_SIZE) && ChunksValue(chunks, CHUNK_SIZE) == TextNumber(message)
      && text == EncodeEnvelope(encrypt(chunks).(length := |chunks|));
    ChunksAreFieldElements(chunks);
    assert Sound(chunks, encrypt(chunks), decrypt);
    ChunkSizeAboveByte();
    ChunkCount(message, chunks, CHUNK_SIZE);
    EnvelopeRoundTrip(encrypt(chunks));
    TextRoundTrip(message);
    back := DecryptMetadata(decrypt, text.value);
  }
}
