/** The encrypted credential file: one length-prefixed frame per entry, and a map of passwords kept
    in it. Serialization and the cipher are any functions that undo each other. */
module Credentials {
  import opened Sequences

  type Byte = b: nat | b < 256 witness 0

  const NONCE_SIZE: nat := 12
  type Nonce = n: seq<Byte> | |n| == 12 witness [0, 0, 0, 0, 0, 0, 0, 0, 0, 0, 0, 0]

  const LENGTHS: nat := 0x1_0000_0000

  /** The JSON of an entry: its `password` field, if it has one, and everything else. */
  datatype Data = Data(password: Option<string>, rest: string)

  datatype Entry = Entry(id: string, kind: string, data: Data)

  /** Serialization followed by encryption, and decryption followed by parsing; both may fail. */
  datatype Cipher = Cipher(
    seal: (seq<Byte>, Entry) -> Option<seq<Byte>>,
    unseal: (seq<Byte>, seq<Byte>) -> Option<Entry>)

  ghost predicate Sound(c: Cipher) {
    forall nonce, e {:trigger c.seal(nonce, e)} :: c.seal(nonce, e).Some? ==>
      c.unseal(nonce, c.seal(nonce, e).value) == Some(e)
  }

  // ---------- Frames ----------

  function LittleEndian(n: nat): (bytes: seq<Byte>)
    requires n < LENGTHS
    ensures |bytes| == 4
  {
    [n % 256, n / 256 % 256, n / 65536 % 256, n / 16777216]
  }

  function FromLittleEndian(bytes: seq<Byte>): nat
    requires |bytes| == 4
  {
    var b0: nat, b1: nat, b2: nat, b3: nat := bytes[0], bytes[1], bytes[2], bytes[3];
    b0 + b1 * 256 + b2 * 65536 + b3 * 16777216
  }

  lemma {:induction false} LengthRoundTrip(n: nat)
    requires n < LENGTHS
    ensures FromLittleEndian(LittleEndian(n)) == n
  {
    var m := n / 256;
    var k := m / 256;
    assert k == n / 65536 && k / 256 == n / 16777216;
  }

  /** A frame: the length of what follows, cut to 32 bits, the nonce, and the ciphertext. */
  function EncryptEntry(c: Cipher, nonce: Nonce, e: Entry): Option<seq<Byte>> {
    match c.seal(nonce, e)
    case None => None
    case Some(text) => Some(LittleEndian((NONCE_SIZE + |text|) % LENGTHS) + nonce + text)
  }

  datatype Decrypted = Decrypted(entry: Entry, consumed: nat)

  function DecryptEntry(c: Cipher, data: seq<Byte>): (r: Option<Decrypted>)
    ensures r.Some? ==> 4 + NONCE_SIZE <= r.value.consumed <= |data|
  {
    if |data| < 4 then None
    else
      var length := FromLittleEndian(data[..4]);
      if |data| < 4 + length || length < NONCE_SIZE then None
      else
        match c.unseal(data[4..4 + NONCE_SIZE], data[4 + NONCE_SIZE..4 + length])
        case None => None
        case Some(e) => Some(Decrypted(e, 4 + length))
  }

  /** What a file holds: the entries up to the first frame that cannot be read. */
  function Entries(c: Cipher, data: seq<Byte>): seq<Entry>
    decreases |data|
  {
    match DecryptEntry(c, data)
    case None => []
    case Some(d) => [d.entry] + Entries(c, data[d.consumed..])
  }

  /** The frames of all entries; `nonces` is what the random generator gives from draw `k` on. */
  function Frames(c: Cipher, entries: seq<Entry>, nonces: nat -> Nonce, k: nat): Option<seq<Byte>>
    decreases entries
  {
    if entries == [] then Some([])
    else
      match EncryptEntry(c, nonces(k), entries[0])
      case None => None
      case Some(frame) => Prepend(frame, Frames(c, entries[1..], nonces, k + 1))
  }

  lemma {:induction false} PrependTwice(a: seq<Byte>, b: seq<Byte>, r: Option<seq<Byte>>)
    ensures Prepend(a, Prepend(b, r)) == Prepend(a + b, r)
  {
    if r.Some? { assert a + (b + r.value) == (a + b) + r.value; }
  }

  /** The entry's ciphertext is short enough for its length to be written in 32 bits. */
  ghost predicate Short(c: Cipher, e: Entry) {
    forall nonce {:trigger c.seal(nonce, e)} :: c.seal(nonce, e).Some? ==>
      NONCE_SIZE + |c.seal(nonce, e).value| < LENGTHS
  }

  ghost predicate AllShort(c: Cipher, entries: seq<Entry>) {
    forall e :: e in entries ==> Short(c, e)
  }

  lemma {:induction false} FrameSlices(length: seq<Byte>, nonce: Nonce, text: seq<Byte>, rest: seq<Byte>)
    requires |length| == 4
    ensures var whole := length + nonce + text + rest;
      && whole[..4] == length && whole[4..4 + NONCE_SIZE] == nonce
      && whole[4 + NONCE_SIZE..4 + NONCE_SIZE + |text|] == text && whole[4 + NONCE_SIZE + |text|..] == rest
  {
  }

  lemma {:induction false} DecryptFrame(c: Cipher, length: seq<Byte>, nonce: Nonce, text: seq<Byte>, rest: seq<Byte>)
    requires |length| == 4 && FromLittleEndian(length) == NONCE_SIZE + |text|
    ensures c.unseal(nonce, text).Some? ==>
              DecryptEntry(c, length + nonce + text + rest) ==
              Some(Decrypted(c.unseal(nonce, text).value, 4 + NONCE_SIZE + |text|))
  {
    FrameSlices(length, nonce, text, rest);
  }

  /** The layout of a frame: the length of what follows in four bytes, the lowest first, the nonce, and
      the ciphertext. */
  lemma {:induction false} FrameLayout(c: Cipher, nonce: Nonce, e: Entry)
    requires Short(c, e) && c.seal(nonce, e).Some?
    ensures EncryptEntry(c, nonce, e).Some?
    ensures var frame, text := EncryptEntry(c, nonce, e).value, c.seal(nonce, e).value;
      var length := 12 + |text|;
      && |frame| == 4 + length && frame[4..16] == nonce && frame[16..] == text
      && frame[0] == length % 256 && frame[1] == length / 256 % 256
      && frame[2] == length / 65536 % 256 && frame[3] == length / 16777216
  {
    FrameParts(c, nonce, e);
    FrameSlices(LittleEndian(NONCE_SIZE + |c.seal(nonce, e).value|), nonce, c.seal(nonce, e).value, []);
    var text := c.seal(nonce, e).value;
    var frame := LittleEndian(NONCE_SIZE + |text|) + nonce + text;
    assert frame + [] == frame;
    assert frame[..4] == LittleEndian(NONCE_SIZE + |text|);
    assert forall k :: 0 <= k < 4 ==> frame[k] == frame[..4][k];
  }

  lemma {:induction false} NotCut(n: nat)
    requires n < LENGTHS
    ensures n % LENGTHS == n
  {
  }

  /** The parts of a frame whose length fits its field. */
  lemma {:induction false} FrameParts(c: Cipher, nonce: Nonce, e: Entry)
    requires Short(c, e) && c.seal(nonce, e).Some?
    ensures var text := c.seal(nonce, e).value;
      && NONCE_SIZE + |text| < LENGTHS
      && EncryptEntry(c, nonce, e) == Some(LittleEndian(NONCE_SIZE + |text|) + nonce + text)
  {
    NotCut(NONCE_SIZE + |c.seal(nonce, e).value|);
  }

  lemma {:induction false} FrameRoundTrip(c: Cipher, nonce: Nonce, e: Entry, rest: seq<Byte>)
    requires Sound(c) && Short(c, e) && EncryptEntry(c, nonce, e).Some?
    ensures var frame := EncryptEntry(c, nonce, e).value;
      DecryptEntry(c, frame + rest) == Some(Decrypted(e, |frame|)) && (frame + rest)[|frame|..] == rest
  {
    var text := c.seal(nonce, e).value;
    FrameParts(c, nonce, e);
    LengthRoundTrip(NONCE_SIZE + |text|);
    DecryptFrame(c, LittleEndian(NONCE_SIZE + |text|), nonce, text, rest);
  }

  lemma {:induction false} FrameThenRest(c: Cipher, nonce: Nonce, e: Entry, rest: seq<Byte>)
    requires Sound(c) && Short(c, e) && EncryptEntry(c, nonce, e).Some?
    ensures Entries(c, EncryptEntry(c, nonce, e).value + rest) == [e] + Entries(c, rest)
  {
    FrameRoundTrip(c, nonce, e, rest);
  }

  /** The frames of two lists one after the other are those of the whole, and no two entries are
      encrypted with the same draw: the second list goes on where the first one ended. */
  lemma {:induction false} FramesConcat(c: Cipher, a: seq<Entry>, b: seq<Entry>, nonces: nat -> Nonce, k: nat)
    ensures Frames(c, a + b, nonces, k) ==
            (if Frames(c, a, nonces, k).Some? then Prepend(Frames(c, a, nonces, k).value, Frames(c, b, nonces, k + |a|))
             else None)
    ensures |a| == 1 ==> Frames(c, a, nonces, k) == EncryptEntry(c, nonces(k), a[0])
    decreases a
  {
    if a == [] {
      assert a + b == b;
      NothingPrepended(Frames(c, b, nonces, k));
    } else {
      assert (a + b)[0] == a[0] && (a + b)[1..] == a[1..] + b;
      FramesConcat(c, a[1..], b, nonces, k + 1);
      var frame, rest := EncryptEntry(c, nonces(k), a[0]), Frames(c, a[1..], nonces, k + 1);
      if frame.Some? && rest.Some? {
        PrependTwice(frame.value, rest.value, Frames(c, b, nonces, k + |a|));
        assert |a| == 1 ==> frame.value + rest.value == frame.value;
      }
    }
  }

  /** Reading gives back every entry that was written, whatever follows the frames. */
  lemma {:induction false} FramesThenRest(c: Cipher, entries: seq<Entry>, nonces: nat -> Nonce, k: nat, rest: seq<Byte>)
    requires Sound(c) && AllShort(c, entries) && Frames(c, entries, nonces, k).Some?
    ensures Entries(c, Frames(c, entries, nonces, k).value + rest) == entries + Entries(c, rest)
    decreases entries
  {
    if entries == [] {
      assert [] + rest == rest;
    } else {
      var e, tail := entries[0], entries[1..];
      var more := Frames(c, tail, nonces, k + 1).value;
      FramesThenRest(c, tail, nonces, k + 1, rest);
      FrameThenRest(c, nonces(k), e, more + rest);
      Associates(EncryptEntry(c, nonces(k), e).value, more, rest);
      Associates([e], tail, Entries(c, rest));
      assert entries == [e] + tail;
    }
  }

  /** The file after damage: the frames of `before` are intact, and what follows cannot be read.
      Exactly `before` is still there, however many frames come after the damage. */
  lemma {:induction false} DamageKeepsWhatPrecedes(c: Cipher, before: seq<Entry>, nonces: nat -> Nonce,
                                                   damaged: seq<Byte>)
    requires Sound(c) && AllShort(c, before)
    requires Frames(c, before, nonces, 0).Some? && DecryptEntry(c, damaged).None?
    ensures Entries(c, Frames(c, before, nonces, 0).value + damaged) == before
  {
    FramesThenRest(c, before, nonces, 0, damaged);
    assert before + [] == before;
  }

  // ---------- The map of passwords ----------

  const PASSWORD := "password"

  predicate Keyed(e: Entry, id: string) {
    e.id == id && e.kind == PASSWORD
  }

  function Without(entries: seq<Entry>, id: string): seq<Entry> {
    if entries == [] then []
    else (if Keyed(entries[0], id) then [] else [entries[0]]) + Without(entries[1..], id)
  }

  function Lookup(entries: seq<Entry>, id: string): Option<string> {
    if entries == [] then None
    else if Keyed(entries[0], id) then entries[0].data.password
    else Lookup(entries[1..], id)
  }

  function PasswordEntry(id: string, password: string): Entry {
    Entry(id, PASSWORD, Data(Some(password), ""))
  }

  datatype Operation = Store(id: string, password: string) | Remove(id: string)

  function Apply(entries: seq<Entry>, op: Operation): seq<Entry> {
    match op
    case Store(id, password) => Without(entries, id) + [PasswordEntry(id, password)]
    case Remove(id) => Without(entries, id)
  }

  lemma {:induction false} LookupWithout(entries: seq<Entry>, id: string, other: string, last: seq<Entry>)
    ensures Lookup(Without(entries, id) + last, other) ==
            if id == other then Lookup(last, other) else Lookup(entries + last, other)
    decreases entries
  {
    if entries == [] {
      assert [] + last == last;
    } else {
      var kept := Without(entries[1..], id);
      LookupWithout(entries[1..], id, other, last);
      LookupNext(entries[0], entries[1..] + last, other);
      Associates([entries[0]], entries[1..], last);
      assert entries == [entries[0]] + entries[1..];
      if Keyed(entries[0], id) {
        assert [] + kept == kept;
      } else {
        LookupNext(entries[0], kept + last, other);
        Associates([entries[0]], kept, last);
      }
    }
  }

  lemma {:induction false} LookupNext(e: Entry, entries: seq<Entry>, id: string)
    ensures Lookup([e] + entries, id) == if Keyed(e, id) then e.data.password else Lookup(entries, id)
  {
    assert ([e] + entries)[1..] == entries;
  }

  lemma {:induction false} LookupAppended(entries: seq<Entry>, e: Entry, id: string)
    requires !Keyed(e, id)
    ensures Lookup(entries + [e], id) == Lookup(entries, id)
    decreases entries
  {
    if entries != [] {
      assert (entries + [e])[1..] == entries[1..] + [e];
      LookupAppended(entries[1..], e, id);
    } else {
      assert [e][1..] == [];
    }
  }

  lemma {:induction false} ApplyIsMapUpdate(entries: seq<Entry>, op: Operation, id: string)
    ensures Lookup(Apply(entries, op), id)
         == if op.id != id then Lookup(entries, id) else if op.Store? then Some(op.password) else None
  {
    match op
    case Store(key, password) =>
      LookupWithout(entries, key, id, [PasswordEntry(key, password)]);
      if key != id { LookupAppended(entries, PasswordEntry(key, password), id); }
    case Remove(key) =>
      LookupWithout(entries, key, id, []);
      assert entries + [] == entries && Without(entries, key) + [] == Without(entries, key);
  }

  function ApplyAll(entries: seq<Entry>, ops: seq<Operation>): seq<Entry> {
    if ops == [] then entries else Apply(ApplyAll(entries, ops[..|ops| - 1]), ops[|ops| - 1])
  }

  /** The last operation on this id, if there is one. */
  function LastOn(ops: seq<Operation>, id: string): Option<Operation> {
    if ops == [] then None
    else if ops[|ops| - 1].id == id then Some(ops[|ops| - 1])
    else LastOn(ops[..|ops| - 1], id)
  }

  /** After any operations, an id has the password last stored for it, none if it was removed last,
      and what it had before if nothing was done to it. */
  lemma {:induction false} PasswordsAreAMap(entries: seq<Entry>, ops: seq<Operation>, id: string)
    ensures Lookup(ApplyAll(entries, ops), id)
         == match LastOn(ops, id) {
              case None => Lookup(entries, id)
              case Some(op) => if op.Store? then Some(op.password) else None
            }
    decreases ops
  {
    if ops != [] {
      var earlier := ops[..|ops| - 1];
      PasswordsAreAMap(entries, earlier, id);
      ApplyIsMapUpdate(ApplyAll(entries, earlier), ops[|ops| - 1], id);
    }
  }

  /** Entries of other ids, and of other kinds, all stay. */
  lemma {:induction false} OtherEntriesStay(entries: seq<Entry>, op: Operation, e: Entry)
    requires e in entries && (e.id != op.id || e.kind != "password")
    ensures e in Apply(entries, op)
  {
    WithoutIff(entries, op.id, e);
  }

  /** Entries of any other key are neither touched nor reordered. */
  lemma {:induction false} OtherKeysUntouched(entries: seq<Entry>, op: Operation)
    ensures Without(Apply(entries, op), op.id) == Without(entries, op.id)
  {
    WithoutTwice(entries, op.id);
    if op.Store? {
      var e := PasswordEntry(op.id, op.password);
      WithoutJoined(Without(entries, op.id), [e], op.id);
      assert Without([e], op.id) == [] by { assert [e][1..] == []; }
    }
  }

  lemma {:induction false} WithoutJoined(a: seq<Entry>, b: seq<Entry>, id: string)
    ensures Without(a + b, id) == Without(a, id) + Without(b, id)
    decreases a
  {
    if a == [] {
      assert a + b == b;
    } else {
      assert (a + b)[0] == a[0] && (a + b)[1..] == a[1..] + b;
      WithoutJoined(a[1..], b, id);
    }
  }

  lemma {:induction false} WithoutTwice(entries: seq<Entry>, id: string)
    ensures Without(Without(entries, id), id) == Without(entries, id)
    decreases entries
  {
    if entries != [] {
      WithoutTwice(entries[1..], id);
      if Keyed(entries[0], id) {
        assert [] + Without(entries[1..], id) == Without(entries[1..], id);
      } else {
        assert Without(entries, id)[1..] == Without(entries[1..], id);
      }
    }
  }

  lemma {:induction false} WithoutIff(entries: seq<Entry>, id: string, e: Entry)
    ensures e in Without(entries, id) <==> e in entries && !Keyed(e, id)
    decreases entries
  {
    if entries != [] { WithoutIff(entries[1..], id, e); }
  }

  /** Storing or removing over a damaged file: the entries that remain are those before the damage
      and the new one, and whatever frames followed are gone for good. A file written under another
      key is damaged from its first frame on. */
  lemma {:induction false} OnlyReadableRemain(c: Cipher, before: seq<Entry>, nonces: nat -> Nonce, damaged: seq<Byte>,
                                              op: Operation, e: Entry)
    requires Sound(c) && AllShort(c, before)
    requires Frames(c, before, nonces, 0).Some? && DecryptEntry(c, damaged).None?
    ensures e in Apply(Entries(c, Frames(c, before, nonces, 0).value + damaged), op) <==>
            (e in before && !Keyed(e, op.id)) || (op.Store? && e == PasswordEntry(op.id, op.password))
  {
    DamageKeepsWhatPrecedes(c, before, nonces, damaged);
    WithoutIff(before, op.id, e);
  }

  // ---------- The store ----------

  class CredentialStore {
    const cipher: Cipher
    /** The file's bytes; none if it cannot be read. */
    var file: Option<seq<Byte>>

    constructor (cipher: Cipher, file: Option<seq<Byte>>)
      ensures this.cipher == cipher && this.file == file
    {
      this.cipher := cipher;
      this.file := file;
    }

    ghost function Contents(): seq<Entry>
      reads this
    {
      match file
      case None => []
      case Some(data) => Entries(cipher, data)
    }

    method LoadAll() returns (entries: seq<Entry>)
      ensures entries == Contents()
    {
      if file.None? { return []; }
      var data := file.value;
      entries := [];
      var offset := 0;
      assert data[0..] == data;
      while offset < |data|
        invariant 0 <= offset <= |data|
        invariant Entries(cipher, data) == entries + Entries(cipher, data[offset..])
      {
        match DecryptEntry(cipher, data[offset..]) {
          case Some(d) =>
            assert data[offset..][d.consumed..] == data[offset + d.consumed..];
            entries := entries + [d.entry];
            offset := offset + d.consumed;
          case None => return;
        }
      }
    }

    /** The new file replaces the old one in one step, or not at all: `written` says whether the
        file system let it. */
    method SaveAll(entries: seq<Entry>, nonces: nat -> Nonce, written: bool) returns (ok: bool)
      modifies `file
      ensures ok <==> Frames(cipher, entries, nonces, 0).Some? && written
      ensures !ok ==> file == old(file)
      ensures ok && Sound(cipher) && AllShort(cipher, entries) ==> Contents() == entries
    {
      var buf: seq<Byte> := [];
      var i := 0;
      assert entries[0..] == entries;
      NothingPrepended(Frames(cipher, entries, nonces, 0));
      while i < |entries|
        invariant 0 <= i <= |entries| && file == old(file)
        invariant Frames(cipher, entries, nonces, 0) == Prepend(buf, Frames(cipher, entries[i..], nonces, i))
      {
        var frame := EncryptEntry(cipher, nonces(i), entries[i]);
        assert entries[i..][1..] == entries[i + 1..];
        if frame.None? { return false; }
        PrependTwice(buf, frame.value, Frames(cipher, entries[i + 1..], nonces, i + 1));
        buf := buf + frame.value;
        i := i + 1;
      }
      assert buf + [] == buf;
      if !written { return false; }
      file := Some(buf);
      if Sound(cipher) && AllShort(cipher, entries) {
        FramesThenRest(cipher, entries, nonces, 0, []);
        assert entries + [] == entries;
      }
      return true;
    }

    /** Storing succeeds exactly if every entry can be encrypted and the file system lets the file be
        replaced. Then the id has that password, and every other id answers as before; otherwise the
        file stays as it is. */
    method StorePassword(id: string, password: string, nonces: nat -> Nonce, written: bool) returns (ok: bool)
      modifies `file
      ensures ok <==> Frames(cipher, Apply(old(Contents()), Store(id, password)), nonces, 0).Some? && written
      ensures !ok ==> file == old(file)
      ensures ok && Sound(cipher) && AllShort(cipher, Apply(old(Contents()), Store(id, password)))
          ==> Contents() == Apply(old(Contents()), Store(id, password))
      ensures ok && Sound(cipher) && AllShort(cipher, Apply(old(Contents()), Store(id, password))) ==>
                Lookup(Contents(), id) == Some(password) &&
                forall other :: other != id ==> Lookup(Contents(), other) == Lookup(old(Contents()), other)
    {
      forall other { ApplyIsMapUpdate(Contents(), Store(id, password), other); }
      var entries := LoadAll();
      var kept := Retain(entries, id);
      ok := SaveAll(kept + [PasswordEntry(id, password)], nonces, written);
    }

    /** Removing succeeds on the same terms; then the id has no password. */
    method RemovePassword(id: string, nonces: nat -> Nonce, written: bool) returns (ok: bool)
      modifies `file
      ensures ok <==> Frames(cipher, Apply(old(Contents()), Remove(id)), nonces, 0).Some? && written
      ensures !ok ==> file == old(file)
      ensures ok && Sound(cipher) && AllShort(cipher, Apply(old(Contents()), Remove(id)))
          ==> Contents() == Apply(old(Contents()), Remove(id))
      ensures ok && Sound(cipher) && AllShort(cipher, Apply(old(Contents()), Remove(id))) ==>
                Lookup(Contents(), id) == None &&
                forall other :: other != id ==> Lookup(Contents(), other) == Lookup(old(Contents()), other)
    {
      forall other { ApplyIsMapUpdate(Contents(), Remove(id), other); }
      var entries := LoadAll();
      var kept := Retain(entries, id);
      ok := SaveAll(kept, nonces, written);
    }

    method LoadPassword(id: string) returns (password: Option<string>)
      ensures password == Lookup(Contents(), id)
    {
      var entries := LoadAll();
      password := Lookup(entries, id);
    }
  }

  lemma {:induction false} NothingPrepended(r: Option<seq<Byte>>)
    ensures Prepend([], r) == r
  {
    if r.Some? { assert [] + r.value == r.value; }
  }

  method Retain(entries: seq<Entry>, id: string) returns (kept: seq<Entry>)
    ensures kept == Without(entries, id)
  {
    kept := [];
    for i := 0 to |entries|
      invariant kept == Without(entries[..i], id)
    {
      assert entries[..i + 1] == entries[..i] + [entries[i]];
      WithoutJoined(entries[..i], [entries[i]], id);
      if !Keyed(entries[i], id) { kept := kept + [entries[i]]; }
    }
    assert entries[..|entries|] == entries;
  }
}
