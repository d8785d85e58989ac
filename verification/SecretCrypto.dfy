/** Reversible secrets: what is stored for a text, and what a stored value reads back as. */
module SecretCrypto {
  import opened Wrappers

  const PREFIX := "enc:v1:"

  datatype Mode = Disabled | Preferred | Required

  datatype Fault = Invalid | NoKey | PlaintextRefused | Unreadable | Conflict | UnknownUser | UserDisabled | CurationDisabled

  /**
    The configured cipher. `seal(key, nonce, text, aad)` is the printable payload for a text and
    `unseal(key, payload, aad)` what it opens to, if it does.
  */
  datatype Crypto = Crypto(mode: Mode, key: Option<nat>,
                           seal: (nat, nat, string, string) -> string,
                           unseal: (nat, string, string) -> Option<string>)

  /** An authenticated cipher: payloads open under their own associated data only, and are longer than the text. */
  ghost predicate Authentic(c: Crypto) {
    && (forall k, n, t, a :: c.unseal(k, c.seal(k, n, t, a), a) == Some(t))
    && (forall k, n, t, a, b :: a != b ==> c.unseal(k, c.seal(k, n, t, a), b) == None)
    && (forall k, p, a :: c.unseal(k, p, a).Some? ==> |c.unseal(k, p, a).value| < |p|)
  }

  predicate StartsWith(s: string, prefix: string) {
    |prefix| <= |s| && s[..|prefix|] == prefix
  }

  predicate IsEncrypted(value: string) { StartsWith(value, PREFIX) }

  predicate Enabled(c: Crypto) { c.key.Some? && c.mode != Disabled }

  function Encrypt(c: Crypto, nonce: nat, text: string, aad: string): Result<string, Fault> {
    if IsEncrypted(text) then Ok(text)
    else if !Enabled(c) then if c.mode.Required? then Err(NoKey) else Ok(text)
    else Ok(PREFIX + c.seal(c.key.value, nonce, text, aad))
  }

  function Decrypt(c: Crypto, stored: string, aad: string, allowPlaintext: bool): Result<string, Fault> {
    if !IsEncrypted(stored) then
      if c.mode.Required? && !allowPlaintext then Err(PlaintextRefused) else Ok(stored)
    else if c.key.None? then Err(NoKey)
    else
      match c.unseal(c.key.value, stored[|PREFIX|..], aad)
      case None => Err(Unreadable)
      case Some(text) => Ok(text)
  }

  /** What a stored value reads back as: plain text as it is unless it is refused, sealed text through the key. */
  lemma DecryptIs(c: Crypto, stored: string, aad: string, allowPlaintext: bool)
    ensures !("enc:v1:" <= stored) ==>
              Decrypt(c, stored, aad, allowPlaintext) == if c.mode == Required && !allowPlaintext then Err(PlaintextRefused) else Ok(stored)
    ensures "enc:v1:" <= stored ==>
              match c.key
              case None => Decrypt(c, stored, aad, allowPlaintext) == Err(NoKey)
              case Some(k) =>
                var text := c.unseal(k, stored[7..], aad);
                Decrypt(c, stored, aad, allowPlaintext) == if text == None then Err(Unreadable) else Ok(text.value)
  {
    if "enc:v1:" <= stored {
      assert stored[..|PREFIX|] == PREFIX && |PREFIX| == 7;
    }
  }

  /** What is stored for a text: a text that looks sealed as it is; another one sealed, or, without a usable key, in plain or not at all. */
  lemma EncryptIs(c: Crypto, nonce: nat, text: string, aad: string)
    ensures "enc:v1:" <= text ==> Encrypt(c, nonce, text, aad) == Ok(text)
    ensures !("enc:v1:" <= text) && c.key != None && c.mode != Disabled ==>
              Encrypt(c, nonce, text, aad) == Ok("enc:v1:" + c.seal(c.key.value, nonce, text, aad))
    ensures !("enc:v1:" <= text) && (c.key == None || c.mode == Disabled) ==>
              Encrypt(c, nonce, text, aad) == if c.mode == Required then Err(NoKey) else Ok(text)
  {
    if "enc:v1:" <= text {
      assert text[..|PREFIX|] == PREFIX;
    }
  }

  /** What `Encrypt` accepts reads back as the same text exactly when the text does not itself look encrypted. */
  lemma ReadsBackIff(c: Crypto, nonce: nat, text: string, aad: string, allowPlaintext: bool)
    requires Authentic(c) && Encrypt(c, nonce, text, aad).Ok?
    ensures Decrypt(c, Encrypt(c, nonce, text, aad).value, aad, allowPlaintext) == Ok(text) <==> !IsEncrypted(text)
    ensures IsEncrypted(Encrypt(c, nonce, text, aad).value) <==> Enabled(c) || IsEncrypted(text)
  {
    var stored := Encrypt(c, nonce, text, aad).value;
    if IsEncrypted(text) {
      var payload := text[|PREFIX|..];
      if c.key.Some? && c.unseal(c.key.value, payload, aad).Some? {
        assert |c.unseal(c.key.value, payload, aad).value| < |payload| < |text|;
      }
    } else if Enabled(c) {
      var payload := c.seal(c.key.value, nonce, text, aad);
      assert stored[..|PREFIX|] == PREFIX && stored[|PREFIX|..] == payload;
    }
  }

  /** A sealed text opens under the associated data it was sealed with and under no other. */
  lemma BoundToItsData(c: Crypto, nonce: nat, text: string, aad: string, other: string)
    requires Authentic(c) && Enabled(c) && !IsEncrypted(text)
    ensures Decrypt(c, Encrypt(c, nonce, text, aad).value, other, false) ==
            if other == aad then Ok(text) else Err(Unreadable)
  {
    var payload := c.seal(c.key.value, nonce, text, aad);
    var stored := PREFIX + payload;
    assert stored[..|PREFIX|] == PREFIX && stored[|PREFIX|..] == payload;
  }

  // ----- the assumption can be met -----

  function Marks(n: nat): string { seq(n, _ => 'a') }

  /** The associated data, preceded by its length in marks, in front of the text. */
  function OpenSeal(key: nat, nonce: nat, text: string, aad: string): string {
    Marks(|aad|) + "." + aad + text
  }

  function OpenUnseal(key: nat, payload: string, aad: string): Option<string> {
    var head := Marks(|aad|) + "." + aad;
    if StartsWith(payload, head) then Some(payload[|head|..]) else None
  }

  /** A payload starts with the head for one string of associated data only. */
  lemma HeadsDiffer(a: string, b: string, text: string)
    requires StartsWith(OpenSeal(0, 0, text, a), Marks(|b|) + "." + b)
    ensures a == b
  {
    var payload, head := OpenSeal(0, 0, text, a), Marks(|b|) + "." + b;
    assert payload[|a|] == '.' && forall i :: 0 <= i < |a| ==> payload[i] == 'a';
    assert head[|b|] == '.' && forall i :: 0 <= i < |b| ==> head[i] == 'a';
    assert forall i :: 0 <= i < |head| ==> payload[i] == head[i] by {
      assert payload[..|head|] == head;
    }
    assert |a| == |b|;
    assert payload[|a| + 1..|head|] == a && head[|b| + 1..] == b;
  }

  /** Ciphers as `Authentic` describes them exist, for every mode and key. */
  lemma AuthenticCipherExists(mode: Mode, key: Option<nat>)
    ensures Authentic(Crypto(mode, key, OpenSeal, OpenUnseal))
  {
    forall k: nat, n: nat, t: string, a: string ensures OpenUnseal(k, OpenSeal(k, n, t, a), a) == Some(t) {
      var payload, head := OpenSeal(k, n, t, a), Marks(|a|) + "." + a;
      assert payload[..|head|] == head && payload[|head|..] == t;
    }
    forall k: nat, n: nat, t: string, a: string, b: string | a != b ensures OpenUnseal(k, OpenSeal(k, n, t, a), b) == None {
      assert OpenSeal(k, n, t, a) == OpenSeal(0, 0, t, a);
      if StartsWith(OpenSeal(0, 0, t, a), Marks(|b|) + "." + b) {
        HeadsDiffer(a, b, t);
      }
    }
  }
}
