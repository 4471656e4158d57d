/**
 Wallet key rotation.

 CryptoService is the ciphertext format of apps/api/src/services/crypto.service.js over an
 abstract AES; KeyRotation is apps/api/scripts/rotate-wallet-keys.js.
 */
module CryptoService {
  import opened Prelude

  predicate HexDigit(c: char) {
    '0' <= c <= '9' || 'a' <= c <= 'f'
  }

  predicate IsKey(k: string) {
    |k| == 64 && forall i :: 0 <= i < |k| ==> HexDigit(k[i])
  }

  /** The 32 bytes of a key, in hex. */
  type Key = k: string | IsKey(k)
    witness seq(64, _ => '0')

  /** AES with hex-encoded nonces, tags and data; opening can fail. */
  datatype Aes = Aes(
    sealTag: (Key, string, string) -> string,
    sealData: (Key, string, string) -> string,
    openGcm: (Key, string, string, string) -> Option<string>,
    openCbc: (Key, string, string) -> Option<string>)

  /** The cipher and the key registry. */
  datatype Service = Service(aes: Aes, keysByVersion: map<string, Key>, defaultKey: Key)

  predicate NoColon(s: string) {
    ':' !in s
  }

  /** Opening what was sealed under the same key and nonce gives the text back; hex has no colon. */
  ghost predicate Lawful(aes: Aes) {
    forall k, iv, text ::
      && aes.openGcm(k, iv, aes.sealTag(k, iv, text), aes.sealData(k, iv, text)) == Some(text)
      && NoColon(aes.sealTag(k, iv, text)) && NoColon(aes.sealData(k, iv, text))
  }

  // ----- Registering a key

  function Lower(c: char): char {
    if 'A' <= c <= 'F' then (c as int + 32) as char else c
  }

  /** `Buffer.from(text, 'hex')`: the leading pairs of hex digits. */
  function FromHex(text: string): (bytes: string)
    ensures forall i :: 0 <= i < |bytes| ==> HexDigit(bytes[i])
  {
    if |text| < 2 || !HexDigit(Lower(text[0])) || !HexDigit(Lower(text[1])) then ""
    else [Lower(text[0]), Lower(text[1])] + FromHex(text[2..])
  }

  /** The capital of a hex digit, or the digit itself. */
  predicate InEitherCase(c: char, d: char) {
    c == d || ('a' <= d <= 'f' && d as int - c as int == 32)
  }

  /** A text of paired hex digits, in capital or small letters, is read in full; reading stops before anything else. */
  lemma {:induction false} FromHexExactly(text: string, digits: string, rest: string)
    requires |text| == |digits| && |digits| % 2 == 0
    requires forall i :: 0 <= i < |digits| ==> digits[i] in {'0', '1', '2', '3', '4', '5', '6', '7', '8', '9', 'a', 'b', 'c', 'd', 'e', 'f'}
    requires forall i :: 0 <= i < |digits| ==> InEitherCase(text[i], digits[i])
    requires rest == "" || !(rest[0] in {'0', '1', '2', '3', '4', '5', '6', '7', '8', '9'} || 'a' <= rest[0] <= 'f' || 'A' <= rest[0] <= 'F')
    ensures FromHex(text + rest) == digits
  {
    if digits == "" {
      assert text + rest == rest;
    } else {
      assert (text + rest)[2..] == text[2..] + rest;
      FromHexExactly(text[2..], digits[2..], rest);
      assert digits == [digits[0], digits[1]] + digits[2..];
      PairIsRead(text[0], digits[0]);
      PairIsRead(text[1], digits[1]);
    }
  }

  lemma PairIsRead(c: char, d: char)
    requires d in {'0', '1', '2', '3', '4', '5', '6', '7', '8', '9', 'a', 'b', 'c', 'd', 'e', 'f'} && InEitherCase(c, d)
    ensures HexDigit(Lower(c)) && Lower(c) == d
  {
  }

  /** The registry with a key added or replaced; anything but 32 bytes is refused. */
  function RegisterKeyVersion(s: Service, version: string, keyHex: string): Option<Service> {
    var key := FromHex(keyHex);
    if |key| != 64 then None else Some(s.(keysByVersion := s.keysByVersion[version := key]))
  }

  /** `text.split(':')`. */
  function Split(text: string): (parts: seq<string>)
    ensures |parts| >= 1
  {
    if text == "" then [""]
    else
      var rest := Split(text[1..]);
      if text[0] == ':' then [""] + rest else [[text[0]] + rest[0]] + rest[1..]
  }

  function ResolveKey(s: Service, version: string): Key {
    if version in s.keysByVersion then s.keysByVersion[version] else s.defaultKey
  }

  /** `version:iv:authTag:data`. */
  function Encrypt(s: Service, text: string, version: string, iv: string): string {
    var key := ResolveKey(s, version);
    version + ":" + (iv + ":" + (s.aes.sealTag(key, iv, text) + ":" + s.aes.sealData(key, iv, text)))
  }

  /** Opening a ciphertext, in one of its three formats, with a key. */
  function Open(aes: Aes, key: Key, text: string): Option<string> {
    var parts := Split(text);
    if |parts| == 4 && |parts[0]| >= 2 && parts[0][0] == 'v' then aes.openGcm(key, parts[1], parts[2], parts[3])
    else if |parts| == 3 then aes.openGcm(key, parts[0], parts[1], parts[2])
    else if |parts| == 2 then aes.openCbc(key, parts[0], parts[1])
    else None
  }

  /** The version whose key `decrypt` takes: the one named by a four-part text, `v1` for the older formats. */
  function ReadThrough(text: string): string {
    if |Split(text)| == 4 then VersionOf(text) else "v1"
  }

  function Decrypt(s: Service, text: string): Option<string> {
    Open(s.aes, ResolveKey(s, ReadThrough(text)), text)
  }

  /** The key version a ciphertext names: the text before the first colon. */
  function VersionOf(text: string): string {
    Split(text)[0]
  }

  /** A version that the versioned format can be read back with. */
  predicate Readable(version: string) {
    NoColon(version) && |version| >= 2 && version[0] == 'v'
  }

  lemma {:induction false} SplitJoin(a: string, rest: string)
    ensures |Split(a + ":" + rest)| >= 1 + |Split(rest)|
    ensures NoColon(a) ==> Split(a + ":" + rest) == [a] + Split(rest)
    ensures !NoColon(a) ==> |Split(a + ":" + rest)| >= 2 + |Split(rest)|
    ensures !NoColon(a) ==> NoColon(Split(a + ":" + rest)[0])
  {
    var text := a + ":" + rest;
    if a == "" {
      assert text[1..] == rest;
    } else {
      assert text[1..] == a[1..] + ":" + rest;
      SplitJoin(a[1..], rest);
      assert a == [a[0]] + a[1..];
      assert NoColon(a) <==> a[0] != ':' && NoColon(a[1..]);
      FirstPartNoColon(text);
    }
  }

  lemma {:induction false} FirstPartNoColon(text: string)
    ensures NoColon(Split(text)[0])
  {
    if text != "" {
      FirstPartNoColon(text[1..]);
    }
  }

  lemma {:induction false} SplitOne(a: string)
    requires NoColon(a)
    ensures Split(a) == [a]
  {
    if a != "" {
      assert a == [a[0]] + a[1..];
      SplitOne(a[1..]);
    }
  }

  /** A version without a colon makes a text of four parts. */
  lemma SealedParts(s: Service, text: string, version: string, iv: string)
    requires Lawful(s.aes) && NoColon(iv) && NoColon(version)
    ensures var key := ResolveKey(s, version);
            Split(Encrypt(s, text, version, iv)) == [version, iv, s.aes.sealTag(key, iv, text), s.aes.sealData(key, iv, text)]
  {
    var key := ResolveKey(s, version);
    var tag, data := s.aes.sealTag(key, iv, text), s.aes.sealData(key, iv, text);
    assert s.aes.openGcm(key, iv, tag, data) == Some(text) && NoColon(tag) && NoColon(data);
    SplitOne(data);
    SplitJoin(tag, data);
    SplitJoin(iv, tag + ":" + data);
    SplitJoin(version, iv + ":" + (tag + ":" + data));
  }

  /** The two older formats are read with the key of v1: nonce, tag and data, or nonce and data. */
  lemma OlderFormatsRead(s: Service, iv: string, tag: string, data: string)
    requires NoColon(iv) && NoColon(tag) && NoColon(data)
    ensures var key := if "v1" in s.keysByVersion then s.keysByVersion["v1"] else s.defaultKey;
            && Decrypt(s, iv + ":" + (tag + ":" + data)) == s.aes.openGcm(key, iv, tag, data)
            && Decrypt(s, iv + ":" + data) == s.aes.openCbc(key, iv, data)
            && Decrypt(s, data) == None
  {
    SplitOne(data);
    SplitJoin(tag, data);
    SplitJoin(iv, tag + ":" + data);
    SplitJoin(iv, data);
    assert Split(iv + ":" + (tag + ":" + data)) == [iv, tag, data] && Split(iv + ":" + data) == [iv, data];
  }

  /** A ciphertext made under a version is readable exactly when the version has the form the reader looks for. */
  lemma DecryptsExactly(s: Service, text: string, version: string, iv: string)
    requires Lawful(s.aes) && NoColon(iv)
    ensures Decrypt(s, Encrypt(s, text, version, iv)) == if Readable(version) then Some(text) else None
    ensures VersionOf(Encrypt(s, text, version, iv)) == version <==> NoColon(version)
  {
    var key := ResolveKey(s, version);
    var tag, data := s.aes.sealTag(key, iv, text), s.aes.sealData(key, iv, text);
    assert s.aes.openGcm(key, iv, tag, data) == Some(text) && NoColon(tag) && NoColon(data);
    SplitOne(data);
    SplitJoin(tag, data);
    SplitJoin(iv, tag + ":" + data);
    SplitJoin(version, iv + ":" + (tag + ":" + data));
    assert Split(iv + ":" + (tag + ":" + data)) == [iv, tag, data];
    FirstPartNoColon(Encrypt(s, text, version, iv));
  }
}

/** A cipher that meets the assumptions made of AES. */
module SampleCipher {
  import opened CryptoService
  import opened Prelude

  function Escape(text: string): string {
    if text == "" then ""
    else EscapeChar(text[0]) + Escape(text[1..])
  }

  function Unescape(data: string): string {
    if data == "" then ""
    else if data[0] == '~' && |data| > 1 then [if data[1] == '1' then ':' else '~'] + Unescape(data[2..])
    else [data[0]] + Unescape(data[1..])
  }

  function EscapeChar(c: char): string {
    if c == ':' then "~1" else if c == '~' then "~0" else [c]
  }

  lemma UnescapeFirst(c: char, rest: string)
    ensures Unescape(EscapeChar(c) + rest) == [c] + Unescape(rest)
  {
    if c == ':' || c == '~' {
      assert (EscapeChar(c) + rest)[2..] == rest;
    } else {
      assert (EscapeChar(c) + rest)[1..] == rest;
    }
  }

  lemma {:induction false} EscapeRoundTrip(text: string)
    ensures Unescape(Escape(text)) == text && NoColon(Escape(text))
  {
    if text != "" {
      EscapeRoundTrip(text[1..]);
      var rest := Escape(text[1..]);
      UnescapeFirst(text[0], rest);
      hide Unescape;
      assert text == [text[0]] + text[1..];
    }
  }

  function KeyText(k: Key): string {
    k
  }

  /** The tag is the key, the data the text without colons. */
  function Sample(): Aes {
    Aes((k: Key, iv: string, text: string) => KeyText(k),
        (k: Key, iv: string, text: string) => Escape(text),
        (k: Key, iv: string, tag: string, data: string) => if tag == k then Some(Unescape(data)) else None,
        (k: Key, iv: string, data: string) => None)
  }

  lemma SampleIsLawful()
    ensures Lawful(Sample())
    ensures forall k: Key, l: Key, iv: string, text: string ::
              k != l ==> Sample().openGcm(l, iv, Sample().sealTag(k, iv, text), Sample().sealData(k, iv, text)).None?
  {
    forall k: Key, iv: string, text: string
      ensures Sample().openGcm(k, iv, Sample().sealTag(k, iv, text), Sample().sealData(k, iv, text)) == Some(text)
      ensures NoColon(Sample().sealTag(k, iv, text)) && NoColon(Sample().sealData(k, iv, text))
    {
      EscapeRoundTrip(text);
    }
  }
}

module KeyRotation {
  import opened CryptoService
  import opened Prelude

  datatype Wallet = Wallet(id: string, secret: Option<string>, keyVersion: Option<string>)

  /** The arguments of the script and the key service it starts with. */
  datatype Job = Job(service: Service, target: string, newKeyHex: Option<string>, nonce: string -> string, writes: string -> bool)

  /** A run once the new key, if one is given, is registered under the target version; None if it is refused. */
  function Start(job: Job): Option<Run> {
    if job.newKeyHex.None? || job.newKeyHex.value == "" then Some(Run(job.service, job.target, job.nonce, job.writes))
    else
      match RegisterKeyVersion(job.service, job.target, job.newKeyHex.value)
      case None => None
      case Some(service) => Some(Run(service, job.target, job.nonce, job.writes))
  }

  /**
   Without a new key nothing is registered; a new key of 32 bytes becomes the key of the target
   version and of no other; any other one stops the script.
   */
  lemma StartsExactly(job: Job)
    ensures job.newKeyHex == None || job.newKeyHex == Some("") ==> Start(job).Some? && Start(job).value.service == job.service
    ensures job.newKeyHex.Some? && job.newKeyHex.value != "" ==> (Start(job).Some? <==> |FromHex(job.newKeyHex.value)| == 64)
    ensures Start(job).Some? ==> var run := Start(job).value; run == Run(run.service, job.target, job.nonce, job.writes)
    ensures Start(job).Some? && job.newKeyHex.Some? && job.newKeyHex.value != "" ==>
              forall version :: ResolveKey(Start(job).value.service, version)
                             == if version == job.target then FromHex(job.newKeyHex.value) else ResolveKey(job.service, version)
  {
    hide FromHex;
  }

  /** What a run depends on besides the wallets: the key service, a nonce for each wallet, and which writes succeed. */
  datatype Run = Run(service: Service, target: string, nonce: string -> string, writes: string -> bool)

  ghost predicate Sound(run: Run) {
    Lawful(run.service.aes) && forall id :: NoColon(run.nonce(id))
  }

  predicate Scanned(w: Wallet) {
    w.secret.Some?
  }

  /** The filter of the script: metadata or ciphertext names another version. */
  predicate NeedsRotation(run: Run, w: Wallet) {
    Scanned(w) && (w.keyVersion != Some(run.target) || VersionOf(w.secret.value) != run.target)
  }

  function Plaintext(service: Service, w: Wallet): Option<string> {
    if w.secret.Some? then Decrypt(service, w.secret.value) else None
  }

  /** The try block goes through: the secret can be read and the write succeeds. */
  predicate Succeeds(run: Run, w: Wallet) {
    Plaintext(run.service, w).Some? && run.writes(w.id)
  }

  function Rotated(run: Run, w: Wallet): Wallet
    requires Plaintext(run.service, w).Some?
  {
    Wallet(w.id, Some(Encrypt(run.service, Plaintext(run.service, w).value, run.target, run.nonce(w.id))), Some(run.target))
  }

  /** One wallet after the run. */
  function After(run: Run, w: Wallet): Wallet {
    if NeedsRotation(run, w) && Succeeds(run, w) then Rotated(run, w) else w
  }

  /** The table after the wallets with these ids were processed. */
  function AfterSome(run: Run, wallets: seq<Wallet>, done: set<string>): seq<Wallet> {
    seq(|wallets|, i requires 0 <= i < |wallets| => if wallets[i].id in done then After(run, wallets[i]) else wallets[i])
  }

  function AfterAll(run: Run, wallets: seq<Wallet>): seq<Wallet> {
    seq(|wallets|, i requires 0 <= i < |wallets| => After(run, wallets[i]))
  }

  ghost predicate UniqueIds(wallets: seq<Wallet>) {
    forall i, j :: 0 <= i < j < |wallets| ==> wallets[i].id != wallets[j].id
  }

  // ----- No plaintext is lost

  lemma RotatedReads(run: Run, w: Wallet)
    requires Sound(run) && Plaintext(run.service, w).Some?
    ensures Plaintext(run.service, Rotated(run, w)) == if Readable(run.target) then Plaintext(run.service, w) else None
    ensures VersionOf(Rotated(run, w).secret.value) == run.target <==> NoColon(run.target)
  {
    assert NoColon(run.nonce(w.id));
    DecryptsExactly(run.service, Plaintext(run.service, w).value, run.target, run.nonce(w.id));
  }

  /** The text a wallet had before the run can still be read from it afterwards, with the keys of then. */
  ghost predicate Survives(job: Job, run: Run, w: Wallet) {
    Plaintext(job.service, w).Some? ==> Plaintext(run.service, After(run, w)) == Plaintext(job.service, w)
  }

  /** The run replaces the key that the target version resolved to. */
  predicate ReplacesKey(job: Job, run: Run) {
    ResolveKey(run.service, job.target) != ResolveKey(job.service, job.target)
  }

  /** A wallet that was readable, with the key of the target version. */
  predicate ReadWithTarget(job: Job, w: Wallet) {
    Plaintext(job.service, w).Some? && ReadThrough(w.secret.value) == job.target
  }

  /** A wallet that was readable and is due to be rewritten. */
  predicate Rewritten(job: Job, run: Run, w: Wallet) {
    Plaintext(job.service, w).Some? && NeedsRotation(run, w) && run.writes(w.id)
  }

  /** Registering a key for the target version changes how a text is read only if it is read through that version. */
  lemma OthersReadAlike(job: Job, run: Run, w: Wallet)
    requires Start(job) == Some(run) && !(ReplacesKey(job, run) && ReadWithTarget(job, w)) && Plaintext(job.service, w).Some?
    ensures Plaintext(run.service, w) == Plaintext(job.service, w)
  {
  }

  /** The key now registered for the target version does not open the wallet's text to what it was. */
  ghost predicate Garbled(job: Job, run: Run, w: Wallet)
    requires w.secret.Some?
  {
    Open(job.service.aes, ResolveKey(run.service, job.target), w.secret.value) != Plaintext(job.service, w)
  }

  /** What a replaced key does to a text that was read through the target version. */
  lemma ReplacedKeyReads(job: Job, run: Run, w: Wallet)
    requires Start(job) == Some(run) && ReadWithTarget(job, w)
    ensures Plaintext(run.service, w) == Open(job.service.aes, ResolveKey(run.service, job.target), w.secret.value)
  {
  }

  /** The run leaves no readable wallet to a replaced key or to a version that cannot be read back. */
  ghost predicate Spared(job: Job, run: Run, w: Wallet) {
    && !(ReplacesKey(job, run) && ReadWithTarget(job, w))
    && (Readable(job.target) || !Rewritten(job, run, w))
  }

  lemma SparedSurvives(job: Job, run: Run, w: Wallet)
    requires Start(job) == Some(run) && Sound(run) && Spared(job, run, w)
    ensures Survives(job, run, w)
  {
    if Plaintext(job.service, w).Some? {
      OthersReadAlike(job, run, w);
      if NeedsRotation(run, w) && Succeeds(run, w) {
        RotatedReads(run, w);
      }
    }
  }

  lemma SurvivesOne(job: Job, run: Run, w: Wallet)
    requires Start(job) == Some(run) && Sound(run)
    requires ReplacesKey(job, run) && ReadWithTarget(job, w) ==> Garbled(job, run, w)
    ensures Survives(job, run, w) <==> Spared(job, run, w)
  {
    if Spared(job, run, w) {
      SparedSurvives(job, run, w);
    } else {
      if ReplacesKey(job, run) && ReadWithTarget(job, w) {
        ReplacedKeyReads(job, run, w);
      } else {
        OthersReadAlike(job, run, w);
      }
      if NeedsRotation(run, w) && Succeeds(run, w) {
        RotatedReads(run, w);
      }
      hide Start, Decrypt, Encrypt, Readable, ReadThrough;
    }
  }

  /**
   Every text that could be read before the run can be read after it, with the keys registered
   then, if
   - no new key is given, or it is the key the target version already had, or no readable wallet
     is read through the target version (texts of the two older formats are read through v1); and
   - the target version has the form that `decrypt` recognises, or no readable wallet is rewritten.
   */
  lemma PlaintextsSurvive(job: Job, run: Run, wallets: seq<Wallet>)
    requires Start(job) == Some(run) && Sound(run)
    requires !ReplacesKey(job, run) || forall w :: w in wallets ==> !ReadWithTarget(job, w)
    requires Readable(job.target) || forall w :: w in wallets ==> !Rewritten(job, run, w)
    ensures forall w :: w in wallets ==> Survives(job, run, w)
  {
    forall w | w in wallets
      ensures Survives(job, run, w)
    {
      SparedSurvives(job, run, w);
    }
  }

  /**
   And only if, for a new key that does not open the wallets read with the old one to the same text:
   nothing is asked of other keys or other texts.
   */
  lemma PlaintextsSurviveExactly(job: Job, run: Run, wallets: seq<Wallet>)
    requires Start(job) == Some(run) && Sound(run)
    requires ReplacesKey(job, run) ==> forall w :: w in wallets && ReadWithTarget(job, w) ==> Garbled(job, run, w)
    ensures (forall w :: w in wallets ==> Survives(job, run, w))
            <==> && (!ReplacesKey(job, run) || forall w :: w in wallets ==> !ReadWithTarget(job, w))
                 && (Readable(job.target) || forall w :: w in wallets ==> !Rewritten(job, run, w))
  {
    forall w | w in wallets
      ensures Survives(job, run, w) <==> Spared(job, run, w)
    {
      SurvivesOne(job, run, w);
    }
    hide Survives, ReplacesKey, ReadWithTarget, Rewritten, Readable, Start;
  }

  /** A wallet that is rotated ends with both version fields at the target; any other stays as it is. */
  lemma VersionsAgreeExactly(run: Run, w: Wallet)
    requires Sound(run)
    ensures !(NeedsRotation(run, w) && Succeeds(run, w)) ==> After(run, w) == w
    ensures NeedsRotation(run, w) && Succeeds(run, w) ==>
              && After(run, w).id == w.id && After(run, w).keyVersion == Some(run.target) && After(run, w).secret.Some?
              && (VersionOf(After(run, w).secret.value) == run.target <==> NoColon(run.target))
  {
    if NeedsRotation(run, w) && Succeeds(run, w) {
      RotatedReads(run, w);
    }
  }

  /**
   `--target-version=v1 --new-key=…` on a wallet at v1: it is not selected, stays as it is, and
   can no longer be read.
   */
  lemma NewKeyForOldVersionLoses(aes: Aes, oldKey: Key, keyHex: string, text: string, nonce: string -> string, iv: string)
    requires Lawful(aes) && NoColon(iv) && |FromHex(keyHex)| == 64
    requires aes.openGcm(FromHex(keyHex), iv, aes.sealTag(oldKey, iv, text), aes.sealData(oldKey, iv, text)) != Some(text)
    ensures var service := Service(aes, map["v1" := oldKey], oldKey);
            var job := Job(service, "v1", Some(keyHex), nonce, id => true);
            var w := Wallet("w", Some(Encrypt(service, text, "v1", iv)), Some("v1"));
            && Start(job).Some? && Readable(job.target)
            && Plaintext(service, w) == Some(text)
            && After(Start(job).value, w) == w
            && Plaintext(Start(job).value.service, After(Start(job).value, w)) != Some(text)
  {
    var service := Service(aes, map["v1" := oldKey], oldKey);
    var job := Job(service, "v1", Some(keyHex), nonce, id => true);
    var w := Wallet("w", Some(Encrypt(service, text, "v1", iv)), Some("v1"));
    DecryptsExactly(service, text, "v1", iv);
    assert Readable("v1");
    SealedParts(service, text, "v1", iv);
    ReplacedKeyReads(job, Start(job).value, w);
  }

  // ----- What a run is for

  /** The wallet's metadata names the version, and its text stands behind it and a colon (or is nothing else). */
  predicate AtVersion(version: string, w: Wallet) {
    && w.secret.Some? && w.keyVersion == Some(version)
    && (version + ":" <= w.secret.value || w.secret.value == version)
  }

  function CountAt(version: string, wallets: seq<Wallet>): nat {
    if wallets == [] then 0 else CountAt(version, wallets[..|wallets| - 1]) + if AtVersion(version, wallets[|wallets| - 1]) then 1 else 0
  }

  /** The text before the first colon is the version. */
  lemma {:induction false} NamedExactly(version: string, text: string)
    requires NoColon(version)
    ensures VersionOf(text) == version <==> version + ":" <= text || text == version
  {
    if text == "" || text[0] == ':' {
      assert text != "" ==> Split(text)[0] == "";
      assert version == "" ==> version + ":" == ":";
    } else if version == "" {
      assert version + ":" == ":";
    } else {
      NamedExactly(version[1..], text[1..]);
      assert version == [version[0]] + version[1..] && text == [text[0]] + text[1..];
      assert version + ":" == [version[0]] + (version[1..] + ":");
      assert VersionOf(text) == [text[0]] + VersionOf(text[1..]);
      PrefixCons(version[0], version[1..] + ":", text[0], text[1..]);
    }
  }

  lemma PrefixCons(c: char, a: string, d: char, b: string)
    ensures [c] + a <= [d] + b <==> c == d && a <= b
  {
    if [c] + a <= [d] + b {
      assert ([c] + a)[0] == ([d] + b)[0];
      assert forall i :: 0 <= i < |a| ==> a[i] == ([c] + a)[i + 1] == ([d] + b)[i + 1] == b[i];
    }
  }

  /** The script selects the wallets with a secret that are not at the target version. */
  lemma SelectsExactly(run: Run, w: Wallet)
    requires NoColon(run.target)
    ensures NeedsRotation(run, w) <==> w.secret.Some? && !AtVersion(run.target, w)
  {
    if w.secret.Some? {
      NamedExactly(run.target, w.secret.value);
    }
  }

  /** After a run every wallet whose secret can be read and written is at the target version; those that were there stay as they are. */
  lemma EveryWalletReachesTarget(run: Run, w: Wallet)
    requires Sound(run) && NoColon(run.target)
    ensures Plaintext(run.service, w).Some? && run.writes(w.id) ==> AtVersion(run.target, After(run, w))
    ensures AtVersion(run.target, w) ==> After(run, w) == w
    ensures After(run, w) != w ==> !AtVersion(run.target, w) && AtVersion(run.target, After(run, w))
  {
    SelectsExactly(run, w);
    if NeedsRotation(run, w) && Succeeds(run, w) {
      RotatedReads(run, w);
      SelectsExactly(run, After(run, w));
    }
  }

  lemma {:induction false} CountsAt(run: Run, wallets: seq<Wallet>)
    requires NoColon(run.target)
    ensures ScannedCount(wallets) - |Selected(run, wallets)| == CountAt(run.target, wallets)
  {
    if wallets != [] {
      CountsAt(run, wallets[..|wallets| - 1]);
      SelectsExactly(run, wallets[|wallets| - 1]);
    }
  }

  // ----- Rerunning

  /** A rerun selects exactly the wallets that were not rotated, if and only if the target version has no colon (or none was rotated). */
  lemma RerunSelectsExactly(run: Run, wallets: seq<Wallet>)
    requires Sound(run)
    ensures (forall w :: w in wallets ==> (NeedsRotation(run, After(run, w)) <==> NeedsRotation(run, w) && !Succeeds(run, w)))
            <==> NoColon(run.target) || forall w :: w in wallets ==> !(NeedsRotation(run, w) && Succeeds(run, w))
  {
    forall w | w in wallets && NeedsRotation(run, w) && Succeeds(run, w)
      ensures NeedsRotation(run, After(run, w)) <==> !NoColon(run.target)
    {
      RotatedReads(run, w);
    }
  }

  /** Equal up to the randomness of ciphertexts. */
  ghost predicate SameUpToNonces(run: Run, a: Wallet, b: Wallet) {
    || a == b
    || (&& a.id == b.id && a.keyVersion == b.keyVersion == Some(run.target)
        && a.secret.Some? && b.secret.Some?
        && VersionOf(a.secret.value) == VersionOf(b.secret.value) == run.target
        && Plaintext(run.service, a) == Plaintext(run.service, b))
  }

  /** One uninterrupted run that can write what the first one wrote before it stopped and what the second one can write. */
  function Together(run: Run, again: Run, done: set<string>): Run {
    run.(writes := id => (id in done && run.writes(id)) || again.writes(id))
  }

  /**
   Stopping after any part of the wallets, whichever writes failed, and running again with other
   nonces and other failures reaches the result of one uninterrupted run up to ciphertext
   randomness: a selected wallet ends at the target version exactly when it is readable and one of
   the two runs could write it.
   */
  lemma ResumingCompletes(run: Run, again: Run, wallets: seq<Wallet>, done: set<string>, i: nat)
    requires Sound(run) && Sound(again) && NoColon(run.target) && i < |wallets|
    requires again == run.(nonce := again.nonce, writes := again.writes)
    ensures var (w, end) := (wallets[i], AfterAll(again, AfterSome(run, wallets, done))[i]);
            && SameUpToNonces(run, end, AfterAll(Together(run, again, done), wallets)[i])
            && (NeedsRotation(run, w) ==>
                  (!NeedsRotation(run, end) <==> Plaintext(run.service, w).Some? && ((w.id in done && run.writes(w.id)) || again.writes(w.id))))
  {
    var w := wallets[i];
    if NeedsRotation(run, w) && Plaintext(run.service, w).Some? {
      RotatedReads(run, w);
      RotatedReads(again, w);
      hide Decrypt, Encrypt, NoColon, Sound, VersionOf;
    }
  }

  // ----- The script as it runs

  datatype Report = Report(scanned: nat, rotated: nat, alreadyCurrent: nat, failed: nat, errors: seq<string>)

  datatype Counts = Counts(rotated: nat, failed: nat, errors: seq<string>)

  function Selected(run: Run, wallets: seq<Wallet>): seq<Wallet> {
    if wallets == [] then []
    else Selected(run, wallets[..|wallets| - 1]) + if NeedsRotation(run, wallets[|wallets| - 1]) then [wallets[|wallets| - 1]] else []
  }

  function ScannedCount(wallets: seq<Wallet>): nat {
    if wallets == [] then 0 else ScannedCount(wallets[..|wallets| - 1]) + if Scanned(wallets[|wallets| - 1]) then 1 else 0
  }

  function Ids(wallets: seq<Wallet>): set<string> {
    set w | w in wallets :: w.id
  }

  /** The ids of the wallets that could not be rotated, in order. */
  function Failures(run: Run, selected: seq<Wallet>): seq<string> {
    if selected == [] then []
    else Failures(run, selected[..|selected| - 1]) + if Succeeds(run, selected[|selected| - 1]) then [] else [selected[|selected| - 1].id]
  }

  lemma {:induction false} SelectedIs(run: Run, wallets: seq<Wallet>)
    ensures forall w :: w in Selected(run, wallets) <==> w in wallets && NeedsRotation(run, w)
    ensures |Selected(run, wallets)| <= ScannedCount(wallets)
  {
    if wallets != [] {
      SelectedIs(run, wallets[..|wallets| - 1]);
      assert wallets == wallets[..|wallets| - 1] + [wallets[|wallets| - 1]];
    }
  }

  /** One more processed wallet. */
  lemma AfterOneMore(run: Run, wallets: seq<Wallet>, done: set<string>, w: Wallet)
    requires UniqueIds(wallets) && w in wallets && w.id !in done && NeedsRotation(run, w)
    ensures AfterSome(run, wallets, done + {w.id})
         == if Succeeds(run, w) then Write(AfterSome(run, wallets, done), w.id, Rotated(run, w)) else AfterSome(run, wallets, done)
  {
    var before, more := AfterSome(run, wallets, done), AfterSome(run, wallets, done + {w.id});
    var k :| 0 <= k < |wallets| && wallets[k] == w;
    forall i | 0 <= i < |wallets|
      ensures more[i] == if Succeeds(run, w) then Write(before, w.id, Rotated(run, w))[i] else before[i]
    {
      assert i != k ==> wallets[i].id != w.id;
    }
  }

  /** `wallet.update({ where: { id }, data })`. */
  function Write(wallets: seq<Wallet>, id: string, to: Wallet): seq<Wallet> {
    seq(|wallets|, i requires 0 <= i < |wallets| => if wallets[i].id == id then to else wallets[i])
  }

  lemma {:induction false} SelectedDistinct(run: Run, wallets: seq<Wallet>)
    requires UniqueIds(wallets)
    ensures UniqueIds(Selected(run, wallets))
  {
    if wallets != [] {
      var init := wallets[..|wallets| - 1];
      SelectedDistinct(run, init);
      SelectedIs(run, init);
      var selected := Selected(run, init);
      forall i | 0 <= i < |selected|
        ensures selected[i].id != wallets[|wallets| - 1].id
      {
        assert selected[i] in init;
      }
    }
  }

  lemma AfterSelected(run: Run, wallets: seq<Wallet>)
    requires UniqueIds(wallets)
    ensures AfterSome(run, wallets, Ids(Selected(run, wallets))) == AfterAll(run, wallets)
  {
    SelectedIs(run, wallets);
    forall i | 0 <= i < |wallets| && NeedsRotation(run, wallets[i])
      ensures wallets[i].id in Ids(Selected(run, wallets))
    {
      assert wallets[i] in Selected(run, wallets);
    }
  }

  class WalletStore {
    var wallets: seq<Wallet>

    constructor (wallets: seq<Wallet>)
      ensures this.wallets == wallets
    {
      this.wallets := wallets;
    }

    /** The wallets with a secret are counted, and those not at the target version selected. */
    method FindMany(run: Run) returns (scanned: nat, toRotate: seq<Wallet>)
      ensures toRotate == Selected(run, wallets) && scanned == ScannedCount(wallets)
      ensures NoColon(run.target) ==> forall w :: w in toRotate <==> w in wallets && w.secret.Some? && !AtVersion(run.target, w)
      ensures NoColon(run.target) ==> scanned - |toRotate| == CountAt(run.target, wallets)
    {
      toRotate, scanned := [], 0;
      for n := 0 to |wallets|
        invariant toRotate == Selected(run, wallets[..n]) && scanned == ScannedCount(wallets[..n])
      {
        assert wallets[..n + 1][..n] == wallets[..n];
        if Scanned(wallets[n]) {
          scanned := scanned + 1;
        }
        if NeedsRotation(run, wallets[n]) {
          toRotate := toRotate + [wallets[n]];
        }
      }
      assert wallets[..|wallets|] == wallets;
      SelectedIs(run, wallets);
      if NoColon(run.target) {
        CountsAt(run, wallets);
        forall w
          ensures NeedsRotation(run, w) <==> w.secret.Some? && !AtVersion(run.target, w)
        {
          SelectsExactly(run, w);
        }
      }
    }

    /** One batch: the wallets from `i` up to `end`, after those before `i`. */
    method RotateBatch(run: Run, ghost before: seq<Wallet>, toRotate: seq<Wallet>, i: nat, end: nat, counts: Counts) returns (after: Counts)
      requires UniqueIds(before) && UniqueIds(toRotate) && i <= end <= |toRotate|
      requires forall w :: w in toRotate ==> w in before && NeedsRotation(run, w)
      requires Progress(run, toRotate, i, counts) && wallets == AfterSome(run, before, Ids(toRotate[..i]))
      modifies this
      ensures Progress(run, toRotate, end, after) && wallets == AfterSome(run, before, Ids(toRotate[..end]))
    {
      after := counts;
      hide AfterSome, Ids, Failures, NeedsRotation, UniqueIds, Decrypt, Encrypt;
      for j := i to end
        invariant Progress(run, toRotate, j, after) && wallets == AfterSome(run, before, Ids(toRotate[..j]))
      {
        var wallet := toRotate[j];
        StepDone(run, before, toRotate, j);
        var plaintext := Plaintext(run.service, wallet);
        if plaintext.Some? && run.writes(wallet.id) {
          wallets := Write(wallets, wallet.id,
                           Wallet(wallet.id, Some(Encrypt(run.service, plaintext.value, run.target, run.nonce(wallet.id))), Some(run.target)));
          after := after.(rotated := after.rotated + 1);
        } else {
          after := Counts(after.rotated, after.failed + 1, after.errors + [wallet.id]);
        }
      }
    }

    /** The batches one after the other, for every batch size. */
    method RotateBatches(run: Run, toRotate: seq<Wallet>, batchSize: nat) returns (counts: Counts)
      requires UniqueIds(wallets) && UniqueIds(toRotate) && batchSize >= 1
      requires forall w :: w in toRotate ==> w in wallets && NeedsRotation(run, w)
      modifies this
      ensures wallets == AfterSome(run, old(wallets), Ids(toRotate))
      ensures Progress(run, toRotate, |toRotate|, counts)
    {
      ghost var before := wallets;
      counts := Counts(0, 0, []);
      var i := 0;
      assert wallets == AfterSome(run, before, Ids(toRotate[..0])) && Progress(run, toRotate, 0, counts);
      hide AfterSome, Ids, Progress;
      while i < |toRotate|
        invariant Progress(run, toRotate, Min(i, |toRotate|), counts)
        invariant wallets == AfterSome(run, before, Ids(toRotate[..Min(i, |toRotate|)]))
        decreases |toRotate| - i
      {
        counts := RotateBatch(run, before, toRotate, i, Min(i + batchSize, |toRotate|), counts);
        i := i + batchSize;
      }
      assert toRotate[..|toRotate|] == toRotate;
    }

    /** A key that is refused stops the script before it reads a wallet. */
    method RotateWalletKeys(job: Job, batchSize: nat, dryRun: bool) returns (report: Option<Report>)
      requires UniqueIds(wallets) && batchSize >= 1
      modifies this
      ensures report.None? <==> Start(job).None?
      ensures wallets == if dryRun || report.None? then old(wallets) else AfterAll(Start(job).value, old(wallets))
      ensures report.Some? ==> var run := Start(job).value; var r := report.value;
              && r.scanned == ScannedCount(old(wallets))
              && r.scanned == r.alreadyCurrent + r.rotated + r.failed
              && r.alreadyCurrent == r.scanned - |Selected(run, old(wallets))|
              && r.errors == (if dryRun then [] else Failures(run, Selected(run, old(wallets))))
              && r.failed == |r.errors|
              && (NoColon(job.target) ==> r.alreadyCurrent == CountAt(job.target, old(wallets)))
      ensures report.Some? && !dryRun && NoColon(job.target) && Sound(Start(job).value) ==>
                forall i :: 0 <= i < |old(wallets)| ==>
                  var w := old(wallets)[i];
                  && (Plaintext(Start(job).value.service, w).Some? && job.writes(w.id) ==> AtVersion(job.target, wallets[i]))
                  && (AtVersion(job.target, w) ==> wallets[i] == w)
    {
      var started := Start(job);
      if started.None? {
        return None;
      }
      var run := started.value;
      ghost var before := wallets;
      var scanned, toRotate := FindMany(run);
      SelectedIs(run, wallets);
      SelectedDistinct(run, wallets);
      AfterSelected(run, wallets);
      var alreadyCurrent := scanned - |toRotate|;
      if dryRun {
        return Some(Report(scanned, |toRotate|, alreadyCurrent, 0, []));
      }
      var counts := RotateBatches(run, toRotate, batchSize);
      assert toRotate[..|toRotate|] == toRotate;
      if NoColon(job.target) && Sound(run) {
        forall i | 0 <= i < |before|
          ensures Plaintext(run.service, before[i]).Some? && job.writes(before[i].id) ==> AtVersion(job.target, After(run, before[i]))
          ensures AtVersion(job.target, before[i]) ==> After(run, before[i]) == before[i]
        {
          EveryWalletReachesTarget(run, before[i]);
        }
      }
      report := Some(Report(scanned, counts.rotated, alreadyCurrent, counts.failed, counts.errors));
    }
  }

  function Min(a: nat, b: nat): nat {
    if a <= b then a else b
  }

  /** The counters after `j` selected wallets. */
  ghost predicate Progress(run: Run, toRotate: seq<Wallet>, j: nat, c: Counts) {
    j <= |toRotate| && c.rotated + c.failed == j && c.errors == Failures(run, toRotate[..j]) && c.failed == |c.errors|
  }

  lemma StepDone(run: Run, before: seq<Wallet>, toRotate: seq<Wallet>, j: nat)
    requires UniqueIds(before) && UniqueIds(toRotate) && j < |toRotate|
    requires forall w :: w in toRotate ==> w in before && NeedsRotation(run, w)
    ensures Failures(run, toRotate[..j + 1]) == Failures(run, toRotate[..j]) + if Succeeds(run, toRotate[j]) then [] else [toRotate[j].id]
    ensures AfterSome(run, before, Ids(toRotate[..j + 1]))
         == if Succeeds(run, toRotate[j]) then Write(AfterSome(run, before, Ids(toRotate[..j])), toRotate[j].id, Rotated(run, toRotate[j]))
            else AfterSome(run, before, Ids(toRotate[..j]))
  {
    assert toRotate[..j + 1][..j] == toRotate[..j];
    assert toRotate[..j + 1] == toRotate[..j] + [toRotate[j]];
    assert Ids(toRotate[..j + 1]) == Ids(toRotate[..j]) + {toRotate[j].id};
    assert toRotate[j] in toRotate;
    AfterOneMore(run, before, Ids(toRotate[..j]), toRotate[j]);
  }
}
