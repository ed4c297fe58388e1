/** The encrypted `secrets` table and the rotation of its key
    (`secrets/store.py`, `secrets/cli.py`). */
module KeyRotation {
  import opened Base
  import opened EnvFile
  import opened EnvTheorems

  const KEY_NAME := "AWF_SECRET_KEY"

  /** An authenticated cipher: only the key that made a token opens it, and every
      token carries a nonce of its own. Other bytes open under no key. */
  datatype Cipher = Token(key: nat, plain: string, nonce: nat) | Garbage(bytes: string)
  datatype Secret = Secret(name: string, cipher: Cipher)

  /** What a text is as a key: not ASCII, refused by `Fernet`, or a key. Different
      texts may stand for the same key. */
  datatype KeyText = NotAscii | Malformed | Key(id: nat)
  type Decoder = string -> KeyText

  datatype Failure = NoKey | BadKey | Undecryptable | NoSecret

  datatype Result<T> = Done(value: T) | Failed(why: Failure)

  function Decrypt(key: nat, cipher: Cipher): Option<string> {
    if cipher.Token? && cipher.key == key then Some(cipher.plain) else None
  }

  predicate AllOpen(rows: seq<Secret>, key: nat) {
    forall i | 0 <= i < |rows| :: Decrypt(key, rows[i].cipher).Some?
  }

  /** `_load_key` and the `Fernet` constructor. */
  function LoadKey(decode: Decoder, env: string): Result<nat> {
    var text := Get(env, KEY_NAME);
    if text.None? then Failed(NoKey)
    else if !decode(text.value).Key? then Failed(BadKey)
    else Done(decode(text.value).id)
  }

  function FindSecret(rows: seq<Secret>, name: string): (i: nat)
    ensures i <= |rows| && forall j | 0 <= j < i :: rows[j].name != name
    ensures i < |rows| ==> rows[i].name == name
  {
    if rows == [] || rows[0].name == name then 0 else 1 + FindSecret(rows[1..], name)
  }

  /** `get_secret` with the key text from `.env`: the text is read and encoded
      first, the row looked up next, and only then is the key put to use. */
  function Read(decode: Decoder, rows: seq<Secret>, env: string, name: string): Result<string> {
    var text := Get(env, KEY_NAME);
    if text.None? then Failed(NoKey)
    else if decode(text.value).NotAscii? then Failed(BadKey)
    else
      var i := FindSecret(rows, name);
      if i == |rows| then Failed(NoSecret)
      else if decode(text.value).Malformed? then Failed(BadKey)
      else
        match Decrypt(decode(text.value).id, rows[i].cipher)
        case None => Failed(Undecryptable)
        case Some(plain) => Done(plain)
  }

  /** What `key` makes of the row with this name. */
  function Opened(rows: seq<Secret>, key: nat, name: string): Option<string> {
    var i := FindSecret(rows, name);
    if i == |rows| then None else Decrypt(key, rows[i].cipher)
  }

  /** The same names with the same plaintexts, all under `key`. */
  ghost predicate Reencrypted(rows: seq<Secret>, rows': seq<Secret>, oldKey: nat, key: nat) {
    && |rows'| == |rows|
    && forall i | 0 <= i < |rows| ::
         && rows'[i].name == rows[i].name && rows'[i].cipher.Token? && rows'[i].cipher.key == key
         && Decrypt(oldKey, rows[i].cipher) == Some(rows'[i].cipher.plain)
  }

  // ------------------------------------------------------------------- the store

  datatype Death = Survives | BeforeCommit | AfterCommit

  class Vault {
    var rows: seq<Secret>
    const env: File
    const decode: Decoder

    constructor (env: File, decode: Decoder)
      ensures rows == [] && this.env == env && this.decode == decode
    {
      rows, this.env, this.decode := [], env, decode;
    }

    /** `set_secret`: what was set is what the key opens, and every other name
        reads under every key as it did. */
    method SetSecret(name: string, plain: string, key: nat, nonce: nat)
      modifies this
      ensures Opened(rows, key, name) == Some(plain)
      ensures forall k, other | other != name :: Opened(rows, k, other) == Opened(old(rows), k, other)
      ensures
        var i := FindSecret(old(rows), name);
        rows == if i < |old(rows)| then old(rows)[i := Secret(name, Token(key, plain, nonce))]
                else old(rows) + [Secret(name, Token(key, plain, nonce))]
    {
      var i := FindSecret(rows, name);
      ghost var before := rows;
      if i < |rows| {
        rows := rows[i := rows[i].(cipher := Token(key, plain, nonce))];
        RowReplaced(before, i, Token(key, plain, nonce));
      } else {
        rows := rows + [Secret(name, Token(key, plain, nonce))];
        RowAdded(before, Secret(name, Token(key, plain, nonce)));
      }
    }

    method GetSecret(name: string) returns (secret: Result<string>)
      ensures secret == Read(decode, rows, env.text, name)
      ensures secret.Done? ==>
                && LoadKey(decode, env.text).Done?
                && Opened(rows, LoadKey(decode, env.text).value, name) == Some(secret.value)
    {
      var text := env.GetValue(KEY_NAME);
      if text.None? {
        return Failed(NoKey);
      }
      var key := decode(text.value);
      if key.NotAscii? {
        return Failed(BadKey);
      }
      var i := FindSecret(rows, name);
      if i == |rows| {
        return Failed(NoSecret);
      }
      if key.Malformed? {
        return Failed(BadKey);
      }
      var plain := Decrypt(key.id, rows[i].cipher);
      return if plain.Some? then Done(plain.value) else Failed(Undecryptable);
    }

    /** `rotate_key`: update row by row, commit at the end, roll back on the first
        row that does not open. */
    method RotateKey(oldKey: nat, newKey: nat, nonce: nat) returns (ok: bool)
      modifies this
      ensures ok == AllOpen(old(rows), oldKey)
      ensures ok ==> Reencrypted(old(rows), rows, oldKey, newKey)
      ensures !ok ==> rows == old(rows)
    {
      var snapshot := rows;
      for i := 0 to |snapshot|
        invariant |rows| == |snapshot| && rows[i..] == snapshot[i..]
        invariant Reencrypted(snapshot[..i], rows[..i], oldKey, newKey)
        invariant AllOpen(snapshot[..i], oldKey)
      {
        assert snapshot[i] == snapshot[i..][0];
        var plain := Decrypt(oldKey, snapshot[i].cipher);
        if plain.None? {
          rows := snapshot;
          return false;
        }
        ghost var before := rows;
        rows := rows[i := rows[i].(cipher := Token(newKey, plain.value, nonce + i))];
        assert rows[..i + 1] == before[..i] + [rows[i]] && before[i] == before[i..][0];
        assert snapshot[..i + 1] == snapshot[..i] + [snapshot[i]];
        assert rows[i + 1..] == before[i..][1..] && snapshot[i + 1..] == snapshot[i..][1..];
      }
      assert snapshot[..|snapshot|] == snapshot && rows[..|rows|] == rows;
      return true;
    }

    /** `cmd_rotate_key`. The generated text always decodes. */
    method CmdRotateKey(newText: string, nonce: nat, dies: Death) returns (error: Option<Failure>)
      requires decode(newText).Key?
      modifies this, env
      ensures
        var loaded := LoadKey(decode, old(env.text));
        error == (if loaded.Failed? then Some(loaded.why)
                  else if !AllOpen(old(rows), loaded.value) then Some(Undecryptable) else None)
      ensures error.Some? || dies == BeforeCommit ==> rows == old(rows)
      ensures error.None? && dies != BeforeCommit ==>
                Reencrypted(old(rows), rows, LoadKey(decode, old(env.text)).value, decode(newText).id)
      ensures env.text == if error.None? && dies == Survives then Set(old(env.text), KEY_NAME, newText)
          else old(env.text)
    {
      var text := env.GetValue(KEY_NAME);
      if text.None? {
        return Some(NoKey);
      }
      var oldKey := decode(text.value);
      if !oldKey.Key? {
        return Some(BadKey);
      }
      var snapshot := rows;
      var ok := RotateKey(oldKey.id, decode(newText).id, nonce);
      if !ok {
        return Some(Undecryptable);
      }
      error := None;
      if dies == BeforeCommit {
        rows := snapshot;
      } else if dies == Survives {
        env.SetValue(KEY_NAME, newText);
      }
    }
  }

  /** Which key is loaded, and which failure is reported when none is. */
  lemma LoadsExactly(decode: Decoder, env: string)
    ensures
      var text := Get(env, "AWF_SECRET_KEY");
      && (LoadKey(decode, env) == Failed(NoKey) <==> text.None?)
      && (forall key: nat :: LoadKey(decode, env) == Done(key) <==> text.Some? && decode(text.value) == Key(key))
      && (LoadKey(decode, env).Failed? && text.Some? ==> LoadKey(decode, env).why == BadKey)
  {
    hide Get;
  }

  /** The first row with this name. */
  predicate IsRowOf(rows: seq<Secret>, i: nat, name: string) {
    i < |rows| && rows[i].name == name && forall j | 0 <= j < i :: rows[j].name != name
  }

  ghost predicate Holds(rows: seq<Secret>, name: string, key: nat, plain: string) {
    exists i: nat, nonce: nat :: IsRowOf(rows, i, name) && rows[i].cipher == Token(key, plain, nonce)
  }

  /** What reading a secret gives, and which failure is reported when several things
      are wrong: no key text first, then one that is not ASCII, then a missing name,
      then a text that is no key, and last a row that it does not open. */
  lemma ReadExactly(decode: Decoder, rows: seq<Secret>, env: string, name: string)
    ensures
      var read := Read(decode, rows, env, name);
      var text := Get(env, "AWF_SECRET_KEY");
      var stored := exists i: nat :: IsRowOf(rows, i, name);
      && (read == Failed(NoKey) <==> text.None?)
      && (read == Failed(NoSecret) <==> text.Some? && !decode(text.value).NotAscii? && !stored)
      && (read == Failed(BadKey)
          <==> text.Some? && (decode(text.value).NotAscii? || (decode(text.value).Malformed? && stored)))
      && (forall plain ::
            read == Done(plain)
            <==> text.Some? && decode(text.value).Key? && Holds(rows, name, decode(text.value).id, plain))
  {
    var text := Get(env, KEY_NAME);
    var i := FindSecret(rows, name);
    hide Get;
    if i < |rows| {
      assert IsRowOf(rows, i, name);
      forall j: nat | IsRowOf(rows, j, name) ensures j == i { }
      var c := rows[i].cipher;
      if c.Token? { assert c == Token(c.key, c.plain, c.nonce); }
    }
  }

  // ------------------------------------------------------------------ end to end

  lemma RowReplaced(rows: seq<Secret>, i: nat, cipher: Cipher)
    requires i < |rows| && FindSecret(rows, rows[i].name) == i
    ensures forall name :: FindSecret(rows[i := rows[i].(cipher := cipher)], name) == FindSecret(rows, name)
  {
    forall name ensures FindSecret(rows[i := rows[i].(cipher := cipher)], name) == FindSecret(rows, name) {
      SameNamesSameRow(rows, rows[i := rows[i].(cipher := cipher)], name);
    }
  }

  lemma {:induction false} RowAdded(rows: seq<Secret>, row: Secret)
    ensures forall name :: FindSecret(rows + [row], name)
              == if FindSecret(rows, name) < |rows| then FindSecret(rows, name)
                 else if row.name == name then |rows| else |rows| + 1
  {
    if rows == [] {
      assert rows + [row] == [row];
    } else {
      assert (rows + [row])[1..] == rows[1..] + [row];
      RowAdded(rows[1..], row);
    }
  }

  lemma KeyNameIsValid()
    ensures ValidKey(KEY_NAME)
  {
  }

  lemma {:induction false} SameNamesSameRow(rows: seq<Secret>, rows': seq<Secret>, name: string)
    requires |rows| == |rows'| && forall i | 0 <= i < |rows| :: rows[i].name == rows'[i].name
    ensures FindSecret(rows', name) == FindSecret(rows, name)
  {
  }

  /** After a rotation a secret reads as before exactly when `.env` now yields the
      new key. */
  lemma ReadsAfterRotation(
    decode: Decoder, rows: seq<Secret>, rows': seq<Secret>, env: string, env': string, key: nat, name: string)
    requires LoadKey(decode, env).Done? && AllOpen(rows, LoadKey(decode, env).value)
    requires Reencrypted(rows, rows', LoadKey(decode, env).value, key)
    requires FindSecret(rows, name) < |rows|
    ensures Read(decode, rows, env, name).Done?
    ensures Read(decode, rows', env', name) == Read(decode, rows, env, name) <==> LoadKey(decode, env') == Done(key)
  {
    SameNamesSameRow(rows, rows', name);
  }

  /** Rotation end to end. Once rows and `.env` are both written, every other
      `.env` key keeps its value, and every stored secret reads as before exactly
      when no line below the edited one defines the key again as a different key. */
  lemma RotationEndToEnd(
    decode: Decoder, rows: seq<Secret>, rows': seq<Secret>, env: string, newText: string, name: string, other: string)
    requires ValidValue(newText) && decode(newText).Key?
    requires LoadKey(decode, env).Done? && AllOpen(rows, LoadKey(decode, env).value)
    requires Reencrypted(rows, rows', LoadKey(decode, env).value, decode(newText).id)
    requires FindSecret(rows, name) < |rows|
    ensures
      var env' := Set(env, KEY_NAME, newText);
      var later := Later(env, KEY_NAME);
      Read(decode, rows', env', name) == Read(decode, rows, env, name)
      <==> later.None? || decode(later.value) == decode(newText)
    ensures other != KEY_NAME ==> Get(Set(env, KEY_NAME, newText), other) == Get(env, other)
  {
    var env' := Set(env, KEY_NAME, newText);
    KeyNameIsValid();
    GetAfterSet(env, KEY_NAME, newText);
    if other != KEY_NAME { SetKeepsOthers(env, KEY_NAME, newText, other); }
    hide Set, Later, Get, ValidKey, ValidValue, FindSecret, AllOpen, Reencrypted;
    ReadsAfterRotation(decode, rows, rows', env, env', decode(newText).id, name);
  }

  /** With one definition of the key to begin with, rotation loses nothing. */
  lemma RotationIsSafe(
    decode: Decoder, rows: seq<Secret>, rows': seq<Secret>, env: string, newText: string, name: string)
    requires ValidValue(newText) && decode(newText).Key? && AtMostOneDefinition(Lines(env), KEY_NAME)
    requires LoadKey(decode, env).Done? && AllOpen(rows, LoadKey(decode, env).value)
    requires Reencrypted(rows, rows', LoadKey(decode, env).value, decode(newText).id)
    ensures Read(decode, rows', Set(env, KEY_NAME, newText), name) == Read(decode, rows, env, name)
  {
    KeyNameIsValid();
    SetThenGet(env, KEY_NAME, newText);
    hide Set, Get, ValidKey, ValidValue, Lines, AtMostOneDefinition;
    SameNamesSameRow(rows, rows', name);
  }

  /** A process that dies between the commit and the `.env` write leaves every
      secret unreadable, unless old and new text stand for the same key. */
  lemma CrashLosesSecrets(
    decode: Decoder, rows: seq<Secret>, rows': seq<Secret>, env: string, newText: string, name: string)
    requires decode(newText).Key?
    requires LoadKey(decode, env).Done? && AllOpen(rows, LoadKey(decode, env).value)
    requires Reencrypted(rows, rows', LoadKey(decode, env).value, decode(newText).id)
    requires FindSecret(rows, name) < |rows|
    ensures Read(decode, rows', env, name) == Failed(Undecryptable)
        <==> LoadKey(decode, env).value != decode(newText).id
  {
  }
}
