/** The byte layout of a CCTP message with auto-deposit hook data, and the readers at fixed offsets. */
module OnrampMessage {
  import opened Prelude
  import opened Positional

  const MESSAGE_BODY_INDEX := 148
  const BURN_MESSAGE_HOOK_DATA_INDEX := 228
  const HOOK_DATA_LENGTH := 96
  const MAX_UINT160: int := Pow(16, 40) - 1

  const SOURCE_DOMAIN_INDEX := 4
  const DESTINATION_DOMAIN_INDEX := 8
  const NONCE_INDEX := 12

  const BURN_TOKEN_INDEX := 4
  const MINT_RECIPIENT_INDEX := 36
  const AMOUNT_INDEX := 68
  const FEE_EXECUTED_INDEX := 164

  /** An address is its 160-bit number: letter case is only how it is shown. */
  type Address = nat

  datatype HookData = HookData(user: Address, pkX: nat, pkY: nat)

  datatype Decoded = Decoded(
    amount: nat,
    burnToken: Address,
    destinationDomain: nat,
    feeExecuted: nat,
    hookData: HookData,
    mintedAmount: nat,
    mintRecipient: Address,
    nonce: string,
    sourceDomain: nat)

  datatype MessageError =
    | InvalidHex
    | MessageTooShort
    | BurnMessageTooShort
    | InvalidHookDataLength
    | FeeExceedsAmount
    | InvalidBurnToken
    | InvalidMintRecipient
    | HookDataMismatch

  predicate IsHexBytes(value: string) {
    "0x" <= value && IsHex(value[2..]) && |value| % 2 == 0
  }

  function ByteLength(value: string): nat
    requires |value| >= 2
  {
    (|value| - 2) / 2
  }

  function ReadHex(value: string, offset: nat, length: nat): string
    requires 2 + offset * 2 + length * 2 <= |value|
  {
    value[2 + offset * 2..2 + offset * 2 + length * 2]
  }

  function ReadUint(value: string, offset: nat, length: nat): nat
    requires IsHexBytes(value) && 2 + offset * 2 + length * 2 <= |value|
  {
    HexValue(SliceHex(value, offset, length))
  }

  /** A slice of hexadecimal digits is hexadecimal digits. */
  function SliceHex(value: string, offset: nat, length: nat): (s: string)
    requires IsHexBytes(value) && 2 + offset * 2 + length * 2 <= |value|
    ensures IsHex(s) && |s| == 2 * length
  {
    var s := ReadHex(value, offset, length);
    assert forall i :: 0 <= i < |s| ==> s[i] == value[2..][offset * 2 + i];
    s
  }

  /** The address in the last twenty bytes of a word. */
  function LastTwentyBytes(word: string): Address
    requires IsHex(word) && |word| == 64
  {
    assert forall i :: 24 <= i < 64 ==> word[24..][i - 24] == word[i];
    HexValue(word[24..])
  }

  function ReadAddress(value: string, offset: nat, error: MessageError): Result<Address, MessageError>
    requires IsHexBytes(value) && 2 + offset * 2 + 64 <= |value|
  {
    if ReadUint(value, offset, 32) > MAX_UINT160 then Err(error)
    else Ok(LastTwentyBytes(SliceHex(value, offset, 32)))
  }

  /** The three words of the hook data: the upper twelve bytes of the user's word are not looked at. */
  function ReadHookData(value: string, offset: nat): HookData
    requires IsHexBytes(value) && 2 + offset * 2 + 192 <= |value|
  {
    HookData(
      LastTwentyBytes(SliceHex(value, offset, 32)),
      ReadUint(value, offset + 32, 32),
      ReadUint(value, offset + 64, 32))
  }

  function DecodeCctpOnrampMessage(message: string): Result<Decoded, MessageError> {
    if !IsHexBytes(message) then Err(InvalidHex)
    else if ByteLength(message) < MESSAGE_BODY_INDEX then Err(MessageTooShort)
    else
      var hookDataStart := MESSAGE_BODY_INDEX + BURN_MESSAGE_HOOK_DATA_INDEX;
      if ByteLength(message) < hookDataStart then Err(BurnMessageTooShort)
      else if ByteLength(message) - hookDataStart != HOOK_DATA_LENGTH then Err(InvalidHookDataLength)
      else
        var amount := ReadUint(message, MESSAGE_BODY_INDEX + AMOUNT_INDEX, 32);
        var feeExecuted := ReadUint(message, MESSAGE_BODY_INDEX + FEE_EXECUTED_INDEX, 32);
        if feeExecuted >= amount then Err(FeeExceedsAmount)
        else
          var burnToken := ReadAddress(message, MESSAGE_BODY_INDEX + BURN_TOKEN_INDEX, InvalidBurnToken);
          if burnToken.Err? then Err(burnToken.error)
          else
            var mintRecipient :=
              ReadAddress(message, MESSAGE_BODY_INDEX + MINT_RECIPIENT_INDEX, InvalidMintRecipient);
            if mintRecipient.Err? then Err(mintRecipient.error)
            else Ok(Decoded(
                      amount,
                      burnToken.value,
                      ReadUint(message, DESTINATION_DOMAIN_INDEX, 4),
                      feeExecuted,
                      ReadHookData(message, hookDataStart),
                      amount - feeExecuted,
                      mintRecipient.value,
                      "0x" + ReadHex(message, NONCE_INDEX, 32),
                      ReadUint(message, SOURCE_DOMAIN_INDEX, 4)))
  }

  // ---------- The layout ----------

  /** Every field of a message and its burn body, in order. */
  datatype Message = Message(
    version: nat,
    sourceDomain: nat,
    destinationDomain: nat,
    nonce: nat,
    sender: nat,
    recipient: nat,
    destinationCaller: nat,
    minFinalityThreshold: nat,
    finalityThresholdExecuted: nat,
    bodyVersion: nat,
    burnToken: nat,
    mintRecipient: nat,
    amount: nat,
    messageSender: nat,
    maxFee: nat,
    feeExecuted: nat,
    expirationBlock: nat,
    user: nat,
    pkX: nat,
    pkY: nat)

  function Values(m: Message): seq<nat> {
    [m.version, m.sourceDomain, m.destinationDomain, m.nonce, m.sender, m.recipient, m.destinationCaller,
     m.minFinalityThreshold, m.finalityThresholdExecuted,
     m.bodyVersion, m.burnToken, m.mintRecipient, m.amount, m.messageSender, m.maxFee, m.feeExecuted,
     m.expirationBlock, m.user, m.pkX, m.pkY]
  }

  /** Where each field starts, and the whole length. */
  function Starts(): seq<nat> {
    [0, 4, 8, 12, 44, 76, 108, 140, 144, 148, 152, 184, 216, 248, 280, 312, 344, 376, 408, 440, 472]
  }

  /** Fields from the first start to the last, with no gap and no overlap. */
  predicate Tiles(starts: seq<nat>) {
    starts != [] && starts[0] == 0 && forall i :: 0 <= i < |starts| - 1 ==> starts[i] <= starts[i + 1]
  }

  function Width(starts: seq<nat>, i: nat): nat
    requires Tiles(starts) && i + 1 < |starts|
  {
    starts[i + 1] - starts[i]
  }

  ghost predicate Fits(values: seq<nat>, starts: seq<nat>) {
    && Tiles(starts) && |starts| == |values| + 1
    && forall i :: 0 <= i < |values| ==> values[i] < Pow(16, 2 * Width(starts, i))
  }

  /** The hexadecimal digits of the first k fields laid end to end. */
  function LayOut(values: seq<nat>, starts: seq<nat>, k: nat): (ds: seq<nat>)
    requires Tiles(starts) && |starts| == |values| + 1 && k <= |values|
    ensures AllBelow(ds, 16)
  {
    if k == 0 then [] else LayOut(values, starts, k - 1) + FixedDigits(values[k - 1], 16, 2 * Width(starts, k - 1))
  }

  ghost predicate LiesAt(ds: seq<nat>, at: nat, part: seq<nat>) {
    at + |part| <= |ds| && ds[at..at + |part|] == part
  }

  lemma {:induction false} LayOutLength(values: seq<nat>, starts: seq<nat>, k: nat)
    requires Tiles(starts) && |starts| == |values| + 1 && k <= |values|
    ensures |LayOut(values, starts, k)| == 2 * starts[k]
  {
    if k > 0 {
      LayOutLength(values, starts, k - 1);
    }
  }

  lemma LiesEarlier(ds: seq<nat>, more: seq<nat>, at: nat, part: seq<nat>)
    requires LiesAt(ds, at, part)
    ensures LiesAt(ds + more, at, part)
  {
    assert (ds + more)[at..at + |part|] == ds[at..at + |part|];
  }

  lemma LiesLast(ds: seq<nat>, part: seq<nat>)
    ensures LiesAt(ds + part, |ds|, part)
  {
  }

  lemma {:induction false} LayOutAt(values: seq<nat>, starts: seq<nat>, k: nat, i: nat)
    requires Tiles(starts) && |starts| == |values| + 1 && i < k <= |values|
    ensures LiesAt(LayOut(values, starts, k), 2 * starts[i], FixedDigits(values[i], 16, 2 * Width(starts, i)))
  {
    var before, last := LayOut(values, starts, k - 1), FixedDigits(values[k - 1], 16, 2 * Width(starts, k - 1));
    if i < k - 1 {
      LayOutAt(values, starts, k - 1, i);
      LiesEarlier(before, last, 2 * starts[i], FixedDigits(values[i], 16, 2 * Width(starts, i)));
    } else {
      LayOutLength(values, starts, k - 1);
      LiesLast(before, last);
    }
  }

  /** The fields some digits hold. */
  function ReadBack(ds: seq<nat>, starts: seq<nat>, k: nat): (values: seq<nat>)
    requires Tiles(starts) && k < |starts| && forall i :: 0 <= i < |starts| ==> 2 * starts[i] <= |ds|
    ensures |values| == k
  {
    if k == 0 then []
    else ReadBack(ds, starts, k - 1) + [ValueOf(ds[2 * starts[k - 1]..2 * starts[k]], 16)]
  }

  lemma {:induction false} ReadBackAt(ds: seq<nat>, starts: seq<nat>, k: nat, i: nat)
    requires Tiles(starts) && i < k < |starts| && forall i :: 0 <= i < |starts| ==> 2 * starts[i] <= |ds|
    ensures ReadBack(ds, starts, k)[i] == ValueOf(ds[2 * starts[i]..2 * starts[i + 1]], 16)
  {
    if i < k - 1 {
      ReadBackAt(ds, starts, k - 1, i);
    }
  }

  lemma ReadBackDigits(ds: seq<nat>, starts: seq<nat>, k: nat, i: nat)
    requires AllBelow(ds, 16) && Tiles(starts)
    requires i < k < |starts| && forall j :: 0 <= j < |starts| ==> 2 * starts[j] <= |ds|
    ensures ReadBack(ds, starts, k)[i] < Pow(16, 2 * Width(starts, i))
    ensures FixedDigits(ReadBack(ds, starts, k)[i], 16, 2 * Width(starts, i)) == ds[2 * starts[i]..2 * starts[i + 1]]
  {
    var part := ds[2 * starts[i]..2 * starts[i + 1]];
    ReadBackAt(ds, starts, k, i);
    ValueFixed(part, 16);
    assert |part| == 2 * Width(starts, i);
  }

  lemma ReadBackFits(ds: seq<nat>, starts: seq<nat>)
    requires AllBelow(ds, 16) && Tiles(starts) && forall i :: 0 <= i < |starts| ==> 2 * starts[i] <= |ds|
    ensures Fits(ReadBack(ds, starts, |starts| - 1), starts)
  {
    var k := |starts| - 1;
    forall i | 0 <= i < k ensures ReadBack(ds, starts, k)[i] < Pow(16, 2 * Width(starts, i)) {
      ReadBackDigits(ds, starts, k, i);
    }
  }

  /** Any digits are the fields they hold, laid out again. */
  lemma {:induction false} ReadBackLaidOut(ds: seq<nat>, starts: seq<nat>, values: seq<nat>, k: nat)
    requires AllBelow(ds, 16) && Tiles(starts) && forall i :: 0 <= i < |starts| ==> 2 * starts[i] <= |ds|
    requires values == ReadBack(ds, starts, |starts| - 1) && k <= |values|
    ensures LayOut(values, starts, k) == ds[..2 * starts[k]]
  {
    if k > 0 {
      ReadBackLaidOut(ds, starts, values, k - 1);
      var part := ds[2 * starts[k - 1]..2 * starts[k]];
      ReadBackDigits(ds, starts, |starts| - 1, k - 1);
      assert ds[..2 * starts[k - 1]] + part == ds[..2 * starts[k]];
    }
  }

  /** A text carries fields when its digits, whatever their letter case, are the fields laid out. */
  ghost predicate Carries(message: string, values: seq<nat>, starts: seq<nat>) {
    IsHexBytes(message) && Fits(values, starts) && HexDigits(message[2..]) == LayOut(values, starts, |values|)
  }

  ghost predicate CarriesMessage(message: string, m: Message) {
    Carries(message, Values(m), Starts())
  }

  // ---------- Reading a field ----------

  ghost predicate ReadsAt(message: string, offset: nat, length: nat, v: nat) {
    && IsHexBytes(message) && 2 + offset * 2 + length * 2 <= |message|
    && ReadUint(message, offset, length) == v
  }

  lemma SliceDigits(message: string, offset: nat, length: nat)
    requires IsHexBytes(message) && 2 + offset * 2 + length * 2 <= |message|
    ensures HexDigits(SliceHex(message, offset, length))
            == HexDigits(message[2..])[2 * offset..2 * offset + 2 * length]
  {
    var s := SliceHex(message, offset, length);
    assert forall i :: 0 <= i < |s| ==> s[i] == message[2..][offset * 2 + i];
  }

  lemma ReadsField(message: string, values: seq<nat>, starts: seq<nat>, i: nat)
    requires Carries(message, values, starts) && i < |values|
    ensures ReadsAt(message, starts[i], Width(starts, i), values[i])
  {
    var offset, length := starts[i], Width(starts, i);
    LayOutAt(values, starts, |values|, i);
    assert 2 * offset + 2 * length <= |HexDigits(message[2..])|;
    SliceDigits(message, offset, length);
    assert HexDigits(SliceHex(message, offset, length)) == FixedDigits(values[i], 16, 2 * length);
    FixedValue(values[i], 16, 2 * length);
  }

  /** Every hexadecimal text of the right length carries some fields. */
  lemma EveryTextCarries(message: string, starts: seq<nat>) returns (values: seq<nat>)
    requires IsHexBytes(message) && Tiles(starts) && ByteLength(message) == starts[|starts| - 1]
    requires forall i :: 0 <= i < |starts| ==> starts[i] <= starts[|starts| - 1]
    ensures Carries(message, values, starts)
  {
    var ds := HexDigits(message[2..]);
    values := ReadBack(ds, starts, |starts| - 1);
    ReadBackFits(ds, starts);
    ReadBackLaidOut(ds, starts, values, |values|);
    assert ds[..|ds|] == ds;
  }

  /** A text carries one list of fields only. */
  lemma CarriesOne(message: string, a: seq<nat>, b: seq<nat>, starts: seq<nat>)
    requires Carries(message, a, starts) && Carries(message, b, starts)
    ensures a == b
  {
    forall i | 0 <= i < |a| ensures a[i] == b[i] {
      ReadsField(message, a, starts, i);
      ReadsField(message, b, starts, i);
    }
  }

  lemma Prefixed(s: string)
    requires IsHex(s) && |s| % 2 == 0
    ensures IsHexBytes("0x" + s) && ("0x" + s)[2..] == s
  {
    assert ("0x" + s)[2..] == s;
    assert ("0x" + s)[0] == '0' && ("0x" + s)[1] == 'x';
  }

  lemma {:induction false} PrefixedHex(ds: seq<nat>)
    requires AllBelow(ds, 16) && |ds| % 2 == 0
    ensures IsHexBytes("0x" + HexText(ds)) && HexDigits(("0x" + HexText(ds))[2..]) == ds
  {
    HexRoundTrip(ds);
    Prefixed(HexText(ds));
  }

  /** Any fields that fit are carried by a text. */
  lemma WrittenCarries(values: seq<nat>, starts: seq<nat>)
    requires Fits(values, starts)
    ensures Carries("0x" + HexText(LayOut(values, starts, |values|)), values, starts)
  {
    LayOutLength(values, starts, |values|);
    PrefixedHex(LayOut(values, starts, |values|));
  }

  lemma LowPartOf(high: nat, low: nat, p: nat, v: nat)
    requires p >= 2 && low < p && v == high * p + low
    ensures v % p == low
  {
    DivModUnique(high, low, p);
  }

  lemma {:induction false} LowDigits(ds: seq<nat>, v: nat, k: nat)
    requires AllBelow(ds, 16) && ValueOf(ds, 16) == v && k <= |ds| && Pow(16, k) >= 2
    ensures ValueOf(ds[|ds| - k..], 16) == v % Pow(16, k)
  {
    var high, low := ds[..|ds| - k], ds[|ds| - k..];
    assert ds == high + low;
    ValueConcat(high, low, 16);
    assert ValueOf(low, 16) < Pow(16, k) by {
      ValueFixed(low, 16);
    }
    LowPartOf(ValueOf(high, 16), ValueOf(low, 16), Pow(16, k), v);
  }

  const TWENTY_BYTES: nat := Pow(16, 40)

  lemma TwentyBytesPositive()
    ensures TWENTY_BYTES >= 2
  {
    PowPositive(16, 39);
    assert TWENTY_BYTES == 16 * Pow(16, 39);
  }

  lemma LastTwentyBytesAre(word: string, v: nat)
    requires IsHex(word) && |word| == 64 && HexValue(word) == v
    ensures TWENTY_BYTES > 0 && LastTwentyBytes(word) == v % TWENTY_BYTES
  {
    TwentyBytesPositive();
    LowDigits(HexDigits(word), v, 40);
    assert HexDigits(word[24..]) == HexDigits(word)[24..];
  }

  lemma AddressAt(message: string, offset: nat, v: nat)
    requires ReadsAt(message, offset, 32, v)
    ensures TWENTY_BYTES > 0 && LastTwentyBytes(SliceHex(message, offset, 32)) == v % TWENTY_BYTES
    ensures v <= MAX_UINT160 ==> LastTwentyBytes(SliceHex(message, offset, 32)) == v
  {
    LastTwentyBytesAre(SliceHex(message, offset, 32), v);
    if v <= MAX_UINT160 {
      SmallMod(v, TWENTY_BYTES);
    }
  }

  lemma ReadsAddress(message: string, offset: nat, v: nat, error: MessageError)
    requires ReadsAt(message, offset, 32, v)
    ensures ReadAddress(message, offset, error) == if v > MAX_UINT160 then Err(error) else Ok(v)
  {
    AddressAt(message, offset, v);
  }

  lemma HookDataAt(message: string, offset: nat, user: nat, pkX: nat, pkY: nat)
    requires ReadsAt(message, offset, 32, user) && ReadsAt(message, offset + 32, 32, pkX)
    requires ReadsAt(message, offset + 64, 32, pkY)
    ensures TWENTY_BYTES > 0 && ReadHookData(message, offset) == HookData(user % TWENTY_BYTES, pkX, pkY)
  {
    AddressAt(message, offset, user);
  }

  // ---------- Decoding ----------

  /** Reading at each field's start gives the field. */
  ghost predicate ReadsEvery(message: string, m: Message) {
    forall i :: 0 <= i < 20 ==> ReadsAt(message, Starts()[i], Starts()[i + 1] - Starts()[i], Values(m)[i])
  }

  lemma MessageLength(message: string, m: Message)
    requires CarriesMessage(message, m)
    ensures |message| == 2 + 2 * 472
  {
    LayOutLength(Values(m), Starts(), 20);
  }

  lemma ReadsTiled(message: string, values: seq<nat>, starts: seq<nat>, n: nat)
    requires Carries(message, values, starts) && |values| == n && |starts| == n + 1
    ensures forall i :: 0 <= i < n ==> ReadsAt(message, starts[i], starts[i + 1] - starts[i], values[i])
  {
    forall i | 0 <= i < n ensures ReadsAt(message, starts[i], starts[i + 1] - starts[i], values[i]) {
      ReadsField(message, values, starts, i);
    }
  }

  lemma ReadsMessage(message: string, m: Message)
    requires CarriesMessage(message, m)
    ensures ReadsEvery(message, m)
  {
    ReadsTiled(message, Values(m), Starts(), 20);
  }

  lemma ReadsMessageField(message: string, m: Message, i: nat, offset: nat, length: nat, v: nat)
    requires ReadsEvery(message, m) && i < 20
    requires Starts()[i] == offset && Starts()[i + 1] == offset + length && Values(m)[i] == v
    ensures ReadsAt(message, offset, length, v)
  {
  }

  /** The offsets the readers use are where the fields start. */
  lemma ReadsHeader(message: string, m: Message)
    requires ReadsEvery(message, m)
    ensures ReadsAt(message, SOURCE_DOMAIN_INDEX, 4, m.sourceDomain)
    ensures ReadsAt(message, DESTINATION_DOMAIN_INDEX, 4, m.destinationDomain)
    ensures ReadsAt(message, NONCE_INDEX, 32, m.nonce)
  {
    ReadsMessageField(message, m, 1, 4, 4, m.sourceDomain);
    ReadsMessageField(message, m, 2, 8, 4, m.destinationDomain);
    ReadsMessageField(message, m, 3, 12, 32, m.nonce);
  }

  lemma ReadsBody(message: string, m: Message)
    requires ReadsEvery(message, m)
    ensures ReadsAt(message, MESSAGE_BODY_INDEX + BURN_TOKEN_INDEX, 32, m.burnToken)
    ensures ReadsAt(message, MESSAGE_BODY_INDEX + MINT_RECIPIENT_INDEX, 32, m.mintRecipient)
    ensures ReadsAt(message, MESSAGE_BODY_INDEX + AMOUNT_INDEX, 32, m.amount)
    ensures ReadsAt(message, MESSAGE_BODY_INDEX + FEE_EXECUTED_INDEX, 32, m.feeExecuted)
  {
    ReadsMessageField(message, m, 10, 152, 32, m.burnToken);
    ReadsMessageField(message, m, 11, 184, 32, m.mintRecipient);
    ReadsMessageField(message, m, 12, 216, 32, m.amount);
    ReadsMessageField(message, m, 15, 312, 32, m.feeExecuted);
  }

  lemma ReadsHook(message: string, m: Message)
    requires ReadsEvery(message, m)
    ensures ReadsAt(message, 376, 32, m.user) && ReadsAt(message, 408, 32, m.pkX) && ReadsAt(message, 440, 32, m.pkY)
  {
    ReadsMessageField(message, m, 17, 376, 32, m.user);
    ReadsMessageField(message, m, 18, 408, 32, m.pkX);
    ReadsMessageField(message, m, 19, 440, 32, m.pkY);
  }

  /** What a decoded message says, in terms of the fields the text carries. */
  ghost predicate Says(d: Decoded, m: Message) {
    && d.amount == m.amount && d.feeExecuted == m.feeExecuted
    && d.mintedAmount + d.feeExecuted == m.amount && d.mintedAmount > 0
    && d.sourceDomain == m.sourceDomain && d.destinationDomain == m.destinationDomain
    && d.burnToken == m.burnToken && d.mintRecipient == m.mintRecipient
    && IsHexBytes(d.nonce) && |d.nonce| == 66 && HexValue(d.nonce[2..]) == m.nonce
    && TWENTY_BYTES > 0 && d.hookData == HookData(m.user % TWENTY_BYTES, m.pkX, m.pkY)
  }

  lemma NonceText(message: string)
    requires IsHexBytes(message) && |message| >= 90
    ensures var nonce := "0x" + ReadHex(message, NONCE_INDEX, 32);
            IsHexBytes(nonce) && |nonce| == 66 && nonce[2..] == SliceHex(message, NONCE_INDEX, 32)
  {
    assert ("0x" + ReadHex(message, NONCE_INDEX, 32))[2..] == SliceHex(message, NONCE_INDEX, 32);
  }

  /** Decoding a message that carries fields gives those fields, or the first of three refusals. */
  lemma DecodesWhatItCarries(message: string, m: Message)
    requires CarriesMessage(message, m)
    ensures var r := DecodeCctpOnrampMessage(message);
            if m.feeExecuted >= m.amount then r == Err(FeeExceedsAmount)
            else if m.burnToken > MAX_UINT160 then r == Err(InvalidBurnToken)
            else if m.mintRecipient > MAX_UINT160 then r == Err(InvalidMintRecipient)
            else r.Ok? && Says(r.value, m)
  {
    MessageLength(message, m);
    ReadsMessage(message, m);
    ReadsHeader(message, m);
    ReadsBody(message, m);
    ReadsHook(message, m);
    ReadsAddress(message, MESSAGE_BODY_INDEX + BURN_TOKEN_INDEX, m.burnToken, InvalidBurnToken);
    ReadsAddress(message, MESSAGE_BODY_INDEX + MINT_RECIPIENT_INDEX, m.mintRecipient, InvalidMintRecipient);
    HookDataAt(message, 376, m.user, m.pkX, m.pkY);
    NonceText(message);
  }

  function FromValues(v: seq<nat>): Message
    requires |v| == 20
  {
    Message(v[0], v[1], v[2], v[3], v[4], v[5], v[6], v[7], v[8], v[9], v[10], v[11], v[12], v[13], v[14], v[15],
            v[16], v[17], v[18], v[19])
  }

  lemma FromValuesValues(v: seq<nat>)
    requires |v| == 20
    ensures Values(FromValues(v)) == v
  {
  }

  /** Every hexadecimal text of 472 bytes is a message. */
  lemma EveryTextIsAMessage(message: string) returns (m: Message)
    requires IsHexBytes(message) && ByteLength(message) == 472
    ensures CarriesMessage(message, m)
  {
    var values := EveryTextCarries(message, Starts());
    m := FromValues(values);
    FromValuesValues(values);
  }

  ghost predicate Acceptable(message: string, m: Message) {
    && CarriesMessage(message, m) && m.feeExecuted < m.amount
    && m.burnToken <= MAX_UINT160 && m.mintRecipient <= MAX_UINT160
  }

  /** A text is decoded exactly when it carries fields with a fee below the amount and two 160-bit addresses. */
  lemma DecodesIff(message: string)
    ensures DecodeCctpOnrampMessage(message).Ok? <==> exists m: Message :: Acceptable(message, m)
  {
    if DecodeCctpOnrampMessage(message).Ok? {
      var m := EveryTextIsAMessage(message);
      DecodesWhatItCarries(message, m);
      assert Acceptable(message, m);
    }
    forall m: Message | Acceptable(message, m) ensures DecodeCctpOnrampMessage(message).Ok? {
      DecodesWhatItCarries(message, m);
    }
  }

  // ---------- The hook data codec ----------

  function HookStarts(): seq<nat> {
    [0, 32, 64, 96]
  }

  function HookValues(h: HookData): seq<nat> {
    [h.user, h.pkX, h.pkY]
  }

  /** An address has twenty bytes and a coordinate thirty-two: the encoder refuses anything larger. */
  predicate Encodable(h: HookData) {
    h.user <= MAX_UINT160 && h.pkX < Pow(16, 64) && h.pkY < Pow(16, 64)
  }

  function EncodeOnrampHookData(h: HookData): Option<string> {
    if Encodable(h) then Some("0x" + HexText(LayOut(HookValues(h), HookStarts(), 3))) else None
  }

  function DecodeOnrampHookData(hex: string): Option<HookData> {
    if !IsHexBytes(hex) || ByteLength(hex) < HOOK_DATA_LENGTH then None else Some(ReadHookData(hex, 0))
  }

  /** A hook data text of three words. */
  ghost predicate CarriesWords(hex: string, user: nat, pkX: nat, pkY: nat) {
    Carries(hex, [user, pkX, pkY], HookStarts())
  }

  lemma DecodesWords(hex: string, user: nat, pkX: nat, pkY: nat)
    requires CarriesWords(hex, user, pkX, pkY)
    ensures |hex| == 194 && ReadsAt(hex, 0, 32, user)
    ensures TWENTY_BYTES > 0 && DecodeOnrampHookData(hex) == Some(HookData(user % TWENTY_BYTES, pkX, pkY))
  {
    var values, starts := [user, pkX, pkY], HookStarts();
    LayOutLength(values, starts, 3);
    ReadsField(hex, values, starts, 0);
    ReadsField(hex, values, starts, 1);
    ReadsField(hex, values, starts, 2);
    HookDataAt(hex, 0, user, pkX, pkY);
  }

  /** Every hexadecimal text of 96 bytes is three words. */
  lemma EveryTextIsThreeWords(hex: string) returns (user: nat, pkX: nat, pkY: nat)
    requires IsHexBytes(hex) && ByteLength(hex) == HOOK_DATA_LENGTH
    ensures CarriesWords(hex, user, pkX, pkY)
  {
    var values := EveryTextCarries(hex, HookStarts());
    user, pkX, pkY := values[0], values[1], values[2];
    assert values == [user, pkX, pkY];
  }

  lemma HookFits(h: HookData)
    requires Encodable(h)
    ensures Fits(HookValues(h), HookStarts())
  {
    PowGrows(16, 40, 64);
    WordsFit(HookValues(h));
  }

  lemma WordsFit(values: seq<nat>)
    requires |values| == 3 && values[0] < Pow(16, 64) && values[1] < Pow(16, 64) && values[2] < Pow(16, 64)
    ensures Fits(values, HookStarts())
  {
    forall i | 0 <= i < 3 ensures values[i] < Pow(16, 2 * Width(HookStarts(), i)) {
      assert Width(HookStarts(), i) == 32;
    }
  }

  lemma EncodedCarries(h: HookData)
    requires Encodable(h)
    ensures CarriesWords(EncodeOnrampHookData(h).value, h.user, h.pkX, h.pkY)
  {
    HookFits(h);
    WrittenCarries(HookValues(h), HookStarts());
  }

  /** Hook data is read back whole. */
  lemma HookDataRoundTrip(h: HookData)
    requires Encodable(h)
    ensures DecodeOnrampHookData(EncodeOnrampHookData(h).value) == Some(h)
  {
    EncodedCarries(h);
    DecodesWords(EncodeOnrampHookData(h).value, h.user, h.pkX, h.pkY);
    SmallMod(h.user, TWENTY_BYTES);
  }

  /** The same bytes, whatever the letter case of their digits. */
  ghost predicate SameBytes(a: string, b: string) {
    IsHexBytes(a) && IsHexBytes(b) && HexDigits(a[2..]) == HexDigits(b[2..])
  }

  lemma SameBytesSameFields(a: string, b: string, values: seq<nat>, others: seq<nat>, starts: seq<nat>)
    requires Carries(a, values, starts) && Carries(b, others, starts)
    ensures SameBytes(a, b) <==> values == others
  {
    if SameBytes(a, b) {
      CarriesOne(a, values, others, starts);
    }
  }

  lemma DecodedIsEncodable(hex: string, user: nat, pkX: nat, pkY: nat)
    requires CarriesWords(hex, user, pkX, pkY)
    ensures TWENTY_BYTES > 0 && Encodable(HookData(user % TWENTY_BYTES, pkX, pkY))
  {
    TwentyBytesPositive();
    var values := [user, pkX, pkY];
    assert values[1] < Pow(16, 2 * Width(HookStarts(), 1)) && values[2] < Pow(16, 2 * Width(HookStarts(), 2));
  }

  /** Encoding what was decoded gives the bytes back exactly when the upper twelve bytes of the user are zero. */
  lemma HookTextRoundTripIff(hex: string, user: nat, pkX: nat, pkY: nat)
    requires CarriesWords(hex, user, pkX, pkY)
    ensures var h := DecodeOnrampHookData(hex);
            h.Some? && EncodeOnrampHookData(h.value).Some?
            && (SameBytes(EncodeOnrampHookData(h.value).value, hex) <==> user <= MAX_UINT160)
  {
    DecodesWords(hex, user, pkX, pkY);
    DecodedIsEncodable(hex, user, pkX, pkY);
    var h := DecodeOnrampHookData(hex).value;
    EncodedCarries(h);
    SameBytesSameFields(EncodeOnrampHookData(h).value, hex, HookValues(h), [user, pkX, pkY], HookStarts());
    if user <= MAX_UINT160 {
      SmallMod(user, TWENTY_BYTES);
    }
    assert HookValues(h)[0] == user % TWENTY_BYTES && [user, pkX, pkY][0] == user;
  }

  function AssertOnrampHookDataMatches(hex: string, expected: HookData): Result<(), MessageError> {
    match DecodeOnrampHookData(hex)
    case None => Err(InvalidHex)
    case Some(h) => if h != expected then Err(HookDataMismatch) else Ok(())
  }

  /** A text of three words matches exactly when the coordinates do and the user is the low twenty bytes of its word. */
  lemma MatchesIff(hex: string, user: nat, pkX: nat, pkY: nat, expected: HookData)
    requires CarriesWords(hex, user, pkX, pkY) && expected.user <= MAX_UINT160
    ensures AssertOnrampHookDataMatches(hex, expected).Ok?
            <==> pkX == expected.pkX && pkY == expected.pkY && IsLowPart(user, expected.user)
  {
    DecodesWords(hex, user, pkX, pkY);
    LowPart(user, expected.user);
  }

  /** So every hook data is matched by a text that is not its encoding: the one with 2^160 added to the user's word. */
  lemma AnotherTextMatches(h: HookData) returns (hex: string)
    requires Encodable(h)
    ensures AssertOnrampHookDataMatches(hex, h).Ok? && !SameBytes(hex, EncodeOnrampHookData(h).value)
  {
    var values := [h.user + TWENTY_BYTES, h.pkX, h.pkY];
    TwentyBytesPositive();
    HighWordFits(h);
    hex := "0x" + HexText(LayOut(values, HookStarts(), 3));
    WrittenCarries(values, HookStarts());
    assert h.user + TWENTY_BYTES == 1 * TWENTY_BYTES + h.user;
    assert IsLowPart(h.user + TWENTY_BYTES, h.user);
    MatchesIff(hex, h.user + TWENTY_BYTES, h.pkX, h.pkY, h);
    EncodedCarries(h);
    SameBytesSameFields(hex, EncodeOnrampHookData(h).value, values, HookValues(h), HookStarts());
    assert values[0] != HookValues(h)[0];
  }

  lemma HighWordFits(h: HookData)
    requires Encodable(h)
    ensures Fits([h.user + TWENTY_BYTES, h.pkX, h.pkY], HookStarts())
  {
    PowGrows(16, 41, 64);
    assert Pow(16, 41) == 16 * Pow(16, 40);
    WordsFit([h.user + TWENTY_BYTES, h.pkX, h.pkY]);
  }

  ghost predicate IsLowPart(word: nat, user: nat) {
    exists top: nat :: word == top * TWENTY_BYTES + user
  }

  lemma LowPart(word: nat, user: nat)
    requires user <= MAX_UINT160
    ensures TWENTY_BYTES > 0 && (IsLowPart(word, user) <==> word % TWENTY_BYTES == user)
  {
    TwentyBytesPositive();
    DivMod(word, TWENTY_BYTES);
    if word % TWENTY_BYTES == user {
      assert word == (word / TWENTY_BYTES) * TWENTY_BYTES + user;
    }
    forall top: nat | word == top * TWENTY_BYTES + user ensures word % TWENTY_BYTES == user {
      DivModUnique(top, user, TWENTY_BYTES);
    }
  }

  lemma {:induction false} PowOfSixteen(n: nat)
    ensures Pow(16, n) == Pow(2, 4 * n)
  {
    if n > 0 {
      PowOfSixteen(n - 1);
      assert Pow(2, 4 * n) == 2 * Pow(2, 4 * n - 1) == 4 * Pow(2, 4 * n - 2) == 8 * Pow(2, 4 * n - 3);
    }
  }

  /** The largest address is 2^160 - 1. */
  lemma LargestAddress()
    ensures MAX_UINT160 == Pow(2, 160) - 1
  {
    PowOfSixteen(40);
  }
}
