/** Key generation and the create/close handlers of src/pages/ApiKeys.tsx. `Math.random` is
    modelled by the 48 draws it makes (each already scaled to an index below 62), SHA-256 by
    the digest it returns, and the insert by whether it failed. */
module ApiKeys {
  import opened Text

  newtype byte = x: int | 0 <= x < 256

  /** The character at each index of the key alphabet: the capitals, the small letters, the
      digits. */
  function AlphabetChar(k: nat): (c: char)
    requires k < 62
  {
    if k < 26 then ('A' as int + k) as char
    else if k < 52 then ('a' as int + k - 26) as char
    else ('0' as int + k - 52) as char
  }

  /** The source's 62-character alphabet, written in five pieces. */
  const KeyAlphabet: string :=
    "ABCDEFGHIJKLM" + "NOPQRSTUVWXYZ" + "abcdefghijklm" + "nopqrstuvwxyz" + "0123456789"

  lemma PieceChars(piece: string, from: nat, k: nat)
    requires from + |piece| <= 62 && k < |piece|
    requires forall j :: 0 <= j < |piece| ==> piece[j] == AlphabetChar(from + j)
    ensures piece[k] == AlphabetChar(from + k)
  {
  }

  /** Every character of the alphabet is the one `AlphabetChar` names for its index. */
  lemma AlphabetIndex()
    ensures |KeyAlphabet| == 62
    ensures forall k :: 0 <= k < |KeyAlphabet| ==> KeyAlphabet[k] == AlphabetChar(k)
  {
    forall k | 0 <= k < |KeyAlphabet|
      ensures KeyAlphabet[k] == AlphabetChar(k)
    {
      if k < 13 { PieceChars("ABCDEFGHIJKLM", 0, k); }
      else if k < 26 { PieceChars("NOPQRSTUVWXYZ", 13, k - 13); }
      else if k < 39 { PieceChars("abcdefghijklm", 26, k - 26); }
      else if k < 52 { PieceChars("nopqrstuvwxyz", 39, k - 39); }
      else { PieceChars("0123456789", 52, k - 52); }
    }
  }

  const KeyStart: string := "luvio_"
  const RandomPart: nat := 48

  predicate IsAlphanumeric(c: char) {
    ('A' <= c <= 'Z') || ('a' <= c <= 'z') || ('0' <= c <= '9')
  }

  /** The key a list of draws produces. */
  function KeyOf(draws: seq<nat>): string
    requires forall k :: 0 <= k < |draws| ==> draws[k] < |KeyAlphabet|
  {
    KeyStart + seq(|draws|, k requires 0 <= k < |draws| => KeyAlphabet[draws[k]])
  }

  /** `generateApiKey`: "luvio_" followed by one alphabet character per draw. */
  method GenerateApiKey(draws: seq<nat>) returns (key: string)
    requires |draws| == RandomPart
    requires forall k :: 0 <= k < |draws| ==> draws[k] < |KeyAlphabet|
    ensures key == KeyOf(draws)
  {
    key := KeyStart;
    for i := 0 to RandomPart
      invariant key == KeyOf(draws[..i])
    {
      key := key + [KeyAlphabet[draws[i]]];
    }
    assert draws[..RandomPart] == draws;
  }

  lemma AlphabetIsAlphanumeric()
    ensures |KeyAlphabet| == 62
    ensures forall k :: 0 <= k < |KeyAlphabet| ==> IsAlphanumeric(KeyAlphabet[k])
  {
    AlphabetIndex();
  }

  /** A generated key has 54 characters: "luvio_" and 48 alphanumeric ones. */
  lemma KeyShape(draws: seq<nat>)
    requires |draws| == RandomPart
    requires forall k :: 0 <= k < |draws| ==> draws[k] < |KeyAlphabet|
    ensures |KeyOf(draws)| == 54
    ensures StartsWith(KeyOf(draws), KeyStart)
    ensures forall k :: |KeyStart| <= k < |KeyOf(draws)| ==> IsAlphanumeric(KeyOf(draws)[k])
  {
    AlphabetIsAlphanumeric();
    var key := KeyOf(draws);
    assert key[..|KeyStart|] == KeyStart;
    forall k | |KeyStart| <= k < |key|
      ensures IsAlphanumeric(key[k])
    {
      assert key[k] == KeyAlphabet[draws[k - |KeyStart|]];
    }
  }

  /** No alphabet character repeats, so different draws give different keys. */
  lemma KeyOfInjective(d1: seq<nat>, d2: seq<nat>)
    requires forall k :: 0 <= k < |d1| ==> d1[k] < |KeyAlphabet|
    requires forall k :: 0 <= k < |d2| ==> d2[k] < |KeyAlphabet|
    requires KeyOf(d1) == KeyOf(d2)
    ensures d1 == d2
  {
    assert |d1| == |d2|;
    forall k | 0 <= k < |d1|
      ensures d1[k] == d2[k]
    {
      assert KeyOf(d1)[|KeyStart| + k] == KeyAlphabet[d1[k]];
      assert KeyOf(d2)[|KeyStart| + k] == KeyAlphabet[d2[k]];
      AlphabetDistinct(d1[k], d2[k]);
    }
  }

  lemma AlphabetDistinct(i: nat, j: nat)
    requires i < |KeyAlphabet| && j < |KeyAlphabet| && KeyAlphabet[i] == KeyAlphabet[j]
    ensures i == j
  {
    AlphabetIndex();
    assert AlphabetChar(i) == AlphabetChar(j);
  }

  /** `key.substring(0, 12) + '...'`: the first twelve characters, or all of a shorter key. */
  function KeyPrefix(key: string): string {
    (if |key| >= 12 then key[..12] else key) + "..."
  }

  /** The prefix of a generated key has 15 characters, starts with "luvio_" and shows the first
      six random characters. */
  lemma KeyPrefixShape(draws: seq<nat>)
    requires |draws| == RandomPart
    requires forall k :: 0 <= k < |draws| ==> draws[k] < |KeyAlphabet|
    ensures |KeyPrefix(KeyOf(draws))| == 15
    ensures StartsWith(KeyPrefix(KeyOf(draws)), KeyStart)
    ensures KeyPrefix(KeyOf(draws))[..12] == KeyOf(draws)[..12]
    ensures KeyPrefix(KeyOf(draws))[12..] == "..."
  {
    var key := KeyOf(draws);
    KeyShape(draws);
    assert KeyPrefix(key)[..6] == key[..6];
  }

  const HexDigits: string := "0123456789abcdef"

  /** `b.toString(16)`: one digit below 16, else two. */
  function ToHex(b: byte): string {
    if b < 16 then [HexDigits[b]] else [HexDigits[b / 16], HexDigits[b % 16]]
  }

  /** `padStart(2, '0')`. */
  function PadStart2(s: string): string {
    if |s| < 2 then ['0'] + s else s
  }

  /** The hex of one byte is always its high then its low digit. */
  lemma PaddedHex(b: byte)
    ensures PadStart2(ToHex(b)) == [HexDigits[b / 16], HexDigits[b % 16]]
  {
  }

  /** `hashArray.map(b => b.toString(16).padStart(2, '0')).join('')`. */
  function HexEncode(bytes: seq<byte>): string
    decreases |bytes|
  {
    if bytes == [] then "" else PadStart2(ToHex(bytes[0])) + HexEncode(bytes[1..])
  }

  /** The value of a lowercase hex digit. */
  function DigitValue(c: char): (v: nat)
    ensures v < 16
  {
    if '0' <= c <= '9' then c as int - '0' as int
    else if 'a' <= c <= 'f' then c as int - 'a' as int + 10
    else 0
  }

  /** Reading pairs of hex digits back into bytes. */
  function HexDecode(s: string): seq<byte>
    decreases |s|
  {
    if |s| < 2 then [] else [(DigitValue(s[0]) * 16 + DigitValue(s[1])) as byte] + HexDecode(s[2..])
  }

  lemma DigitRoundTrip(n: nat)
    requires n < 16
    ensures DigitValue(HexDigits[n]) == n
  {
  }

  /** Each byte becomes exactly two lowercase hex digits... */
  lemma {:induction false} HexEncodeShape(bytes: seq<byte>)
    ensures |HexEncode(bytes)| == 2 * |bytes|
    ensures forall k :: 0 <= k < |HexEncode(bytes)| ==> HexEncode(bytes)[k] in HexDigits
    decreases |bytes|
  {
    if bytes != [] {
      HexEncodeShape(bytes[1..]);
      PaddedHex(bytes[0]);
      var head := PadStart2(ToHex(bytes[0]));
      var rest := HexEncode(bytes[1..]);
      forall k | 0 <= k < |head + rest|
        ensures (head + rest)[k] in HexDigits
      {
        if k >= 2 {
          assert (head + rest)[k] == rest[k - 2];
        }
      }
    }
  }

  /** ...and decoding the pairs gives the bytes back, so the encoding is injective. */
  lemma {:induction false} HexRoundTrip(bytes: seq<byte>)
    ensures HexDecode(HexEncode(bytes)) == bytes
    decreases |bytes|
  {
    if bytes != [] {
      HexRoundTrip(bytes[1..]);
      PaddedHex(bytes[0]);
      var b := bytes[0];
      var s := HexEncode(bytes);
      assert s == [HexDigits[b / 16], HexDigits[b % 16]] + HexEncode(bytes[1..]);
      assert s[2..] == HexEncode(bytes[1..]);
      DigitRoundTrip(b as int / 16);
      DigitRoundTrip(b as int % 16);
    }
  }

  lemma HexInjective(x: seq<byte>, y: seq<byte>)
    requires HexEncode(x) == HexEncode(y)
    ensures x == y
  {
    HexRoundTrip(x);
    HexRoundTrip(y);
  }

  /** The row inserted for a new key. */
  datatype KeyInsert = KeyInsert(userId: string, name: string, keyHash: string, keyPrefix: string)

  /** How a create attempt ended, with the toast it shows. */
  datatype CreateOutcome = NameMissing | CreateFailed(message: string) | Created(key: string)

  const NotAuthenticatedMessage: string := "Not authenticated"

  class KeysPage {
    var keyName: string
    var newKey: Option<string>
    var isDialogOpen: bool
    var showKey: bool

    constructor()
      ensures keyName == "" && newKey.None? && !isDialogOpen && !showKey
    {
      keyName := "";
      newKey := None;
      isDialogOpen := false;
      showKey := false;
    }

    /** `handleCreateKey` with the create mutation. A blank name is refused before anything
        else. Without a user the mutation throws "Not authenticated" before a key exists. With
        a user a key is generated, its hex SHA-256 digest and prefix are inserted, and on an
        insert error the error's message is reported. In both failures the rejected `await`
        skips the reset of the name. On success the key is shown once and the name is reset. */
    method HandleCreateKey(user: Option<string>, draws: seq<nat>, sha256: string -> seq<byte>,
                           insertError: Option<string>)
      returns (outcome: CreateOutcome, insert: Option<KeyInsert>)
      requires |draws| == RandomPart
      requires forall k :: 0 <= k < |draws| ==> draws[k] < |KeyAlphabet|
      modifies this
      ensures Trim(old(keyName)) == "" ==>
                outcome == NameMissing && insert.None?
                && keyName == old(keyName) && newKey == old(newKey) && showKey == old(showKey)
      ensures Trim(old(keyName)) != "" && user.None? ==>
                outcome == CreateFailed(NotAuthenticatedMessage) && insert.None?
                && keyName == old(keyName) && newKey == old(newKey) && showKey == old(showKey)
      ensures Trim(old(keyName)) != "" && user.Some? ==>
                var key := KeyOf(draws);
                && insert == Some(KeyInsert(user.value, old(keyName), HexEncode(sha256(key)), KeyPrefix(key)))
                && (insertError.Some? ==>
                      outcome == CreateFailed(insertError.value)
                      && keyName == old(keyName) && newKey == old(newKey) && showKey == old(showKey))
                && (insertError.None? ==>
                      outcome == Created(key) && newKey == Some(key) && showKey && keyName == "")
      ensures isDialogOpen == old(isDialogOpen)
    {
      insert := None;
      if Trim(keyName) == "" {
        return NameMissing, None;
      }
      if user.None? {
        return CreateFailed(NotAuthenticatedMessage), None;
      }
      var key := GenerateApiKey(draws);
      insert := Some(KeyInsert(user.value, keyName, HexEncode(sha256(key)), KeyPrefix(key)));
      if insertError.Some? {
        return CreateFailed(insertError.value), insert;
      }
      newKey := Some(key);
      showKey := true;
      keyName := "";
      outcome := Created(key);
    }

    /** `handleDialogClose`: the dialog closes and forgets the key and the name. */
    method HandleDialogClose()
      modifies this
      ensures !isDialogOpen && newKey.None? && !showKey && keyName == ""
    {
      isDialogOpen := false;
      newKey := None;
      showKey := false;
      keyName := "";
    }
  }
}
