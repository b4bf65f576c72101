/**
 EncryptedCharField of fields.py over an abstract keyed cipher. Column values
 and Python values are strings or None; ciphertext carries the source's prefix.
 */
module EncryptedField {
  import opened Options

  /** A value of the key setting: a Fernet key, or a text that is none. */
  datatype Key = Fernet(id: nat) | Malformed(text: string)

  datatype Result<T> = Ok(value: T) | SecretConfigurationError

  /** Encryption takes randomness; decryption fails on a bad token. */
  datatype Cipher = Cipher(encrypt: (nat, string, nat) -> string, decrypt: (nat, string) -> Option<string>)

  /** What is assumed of Fernet: it inverts, it rejects foreign keys, and a token is longer than its text. */
  ghost predicate Lawful(c: Cipher) {
    && (forall key, text, noise :: c.decrypt(key, c.encrypt(key, text, noise)) == Some(text))
    && (forall key, other, text, noise :: key != other ==> c.decrypt(other, c.encrypt(key, text, noise)) == None)
    && (forall key, token :: c.decrypt(key, token).Some? ==> |c.decrypt(key, token).value| < |token|)
  }

  const PREFIX := "enc::"

  predicate HasPrefix(s: string) {
    PREFIX <= s
  }

  function Token(s: string): string
    requires HasPrefix(s)
  {
    s[|PREFIX|..]
  }

  /** `value in (None, "")` */
  predicate Blank(value: Option<string>) {
    value == None || value == Some("")
  }

  function GetFernet(setting: Option<Key>): Result<nat> {
    if setting == None || setting == Some(Malformed("")) then SecretConfigurationError
    else if setting.value.Malformed? then SecretConfigurationError
    else Ok(setting.value.id)
  }

  function GetPrepValue(c: Cipher, setting: Option<Key>, value: Option<string>, noise: nat): Result<Option<string>> {
    if Blank(value) then Ok(value)
    else if HasPrefix(value.value) then Ok(value)
    else match GetFernet(setting)
         case Ok(key) => Ok(Some(PREFIX + c.encrypt(key, value.value, noise)))
         case SecretConfigurationError => SecretConfigurationError
  }

  function FromDbValue(c: Cipher, setting: Option<Key>, value: Option<string>): Result<Option<string>> {
    if Blank(value) then Ok(value)
    else if !HasPrefix(value.value) then Ok(value)
    else match GetFernet(setting)
         case Ok(key) =>
           var text := c.decrypt(key, Token(value.value));
           Ok(if text.Some? then text else Some(""))
         case SecretConfigurationError => SecretConfigurationError
  }

  lemma PrefixThenToken(token: string)
    ensures HasPrefix(PREFIX + token) && Token(PREFIX + token) == token
  {}

  /**
   The key is asked for exactly to write new secrets and to read encrypted ones;
   only then can it be missing or bad.
   */
  lemma KeyIsNeededIff(c: Cipher, setting: Option<Key>, value: Option<string>, noise: nat)
    ensures GetPrepValue(c, setting, value, noise).SecretConfigurationError?
       <==> (setting == None || setting.value.Malformed?)
            && value.Some? && value.value != "" && !("enc::" <= value.value)
    ensures FromDbValue(c, setting, value).SecretConfigurationError?
       <==> (setting == None || setting.value.Malformed?) && value.Some? && "enc::" <= value.value
  {}

  /**
   New secrets are stored as a marked token, and a token that opens reads as its
   text. None, the empty string, what is marked already and legacy plaintext
   pass through unchanged, whatever the key setting is.
   */
  lemma StoredFormExactly(c: Cipher, setting: Option<Key>, key: nat, text: string, noise: nat)
    ensures text != "" && !("enc::" <= text) ==>
              GetPrepValue(c, Some(Fernet(key)), Some(text), noise) == Ok(Some("enc::" + c.encrypt(key, text, noise)))
    ensures FromDbValue(c, Some(Fernet(key)), Some("enc::" + text))
              == Ok(Some(if c.decrypt(key, text) == None then "" else c.decrypt(key, text).value))
    ensures GetPrepValue(c, setting, Some("enc::" + text), noise) == Ok(Some("enc::" + text))
    ensures GetPrepValue(c, setting, None, noise) == Ok(None) &&
        GetPrepValue(c, setting, Some(""), noise) == Ok(Some(""))
    ensures FromDbValue(c, setting, None) == Ok(None)
    ensures !("enc::" <= text) ==> FromDbValue(c, setting, Some(text)) == Ok(Some(text))
  {
    PrefixThenToken(text);
  }

  /** What is written is read back, exactly if it does not look encrypted already. */
  lemma RoundTripIff(c: Cipher, key: nat, value: Option<string>, noise: nat)
    requires Lawful(c)
    ensures var stored := GetPrepValue(c, Some(Fernet(key)), value, noise);
            && stored.Ok?
            && (FromDbValue(c, Some(Fernet(key)), stored.value) == Ok(value)
                <==> value == None || !HasPrefix(value.value))
  {
    if !Blank(value) {
      PrefixThenToken(c.encrypt(key, value.value, noise));
    }
  }

  /** Another key reads what was encrypted as empty. */
  lemma WrongKeyReadsEmpty(c: Cipher, key: nat, other: nat, value: Option<string>, noise: nat)
    requires Lawful(c) && key != other && !Blank(value) && !HasPrefix(value.value)
    ensures FromDbValue(c, Some(Fernet(other)), GetPrepValue(c, Some(Fernet(key)), value, noise).value) == Ok(Some(""))
  {
    PrefixThenToken(c.encrypt(key, value.value, noise));
  }

  /** Saving what was loaded, under the same key, keeps what the column says; without a key nothing is lost either. */
  lemma ResaveKeepsMeaning(c: Cipher, setting: Option<Key>, stored: Option<string>, noise: nat)
    requires Lawful(c) && FromDbValue(c, setting, stored).Ok?
    requires var value := FromDbValue(c, setting, stored).value; value == None || !HasPrefix(value.value)
    ensures var value := FromDbValue(c, setting, stored).value;
            var again := GetPrepValue(c, setting, value, noise);
            again.Ok? ==> FromDbValue(c, setting, again.value) == Ok(value)
  {
    var value := FromDbValue(c, setting, stored).value;
    if !Blank(value) && GetFernet(setting).Ok? {
      PrefixThenToken(c.encrypt(GetFernet(setting).value, value.value, noise));
    }
  }

  // ----- the assumptions can be met

  function Marks(n: nat): string {
    seq(n, _ => 'k')
  }

  const TOY := Cipher(
    (key: nat, text: string, noise: nat) => Marks(key) + ":" + text,
    (key: nat, token: string) =>
      if |token| > key && token[key] == ':' && token[..key] == Marks(key) then Some(token[key + 1..]) else None)

  lemma LawfulCipherExists()
    ensures Lawful(TOY)
  {
    forall key: nat, text: string, noise: nat
      ensures TOY.decrypt(key, TOY.encrypt(key, text, noise)) == Some(text)
    {
      var token := Marks(key) + ":" + text;
      assert token[..key] == Marks(key) && token[key + 1..] == text;
    }
    forall key: nat, other: nat, text: string, noise: nat | key != other
      ensures TOY.decrypt(other, TOY.encrypt(key, text, noise)) == None
    {
      var token := Marks(key) + ":" + text;
      if other < key {
        assert token[other] == 'k';
      } else if |token| > other {
        assert token[..other][key] == ':' && Marks(other)[key] == 'k';
      }
    }
  }
}
