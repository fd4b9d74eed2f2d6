/**
 Names on both sides of the link: entity ids, the FNV-1a key an entity has on the
 wire, and the slug that keeps the entities of different devices apart.
*/
module Naming {
  import opened Words

  // ---------------------------------------------------------------- splitting

  /** `split` on one character: always at least one piece, none of which contains it. */
  function Split(s: string, sep: char): (pieces: seq<string>)
    ensures |pieces| >= 1
    ensures forall i :: 0 <= i < |pieces| ==> sep !in pieces[i]
  {
    if s == "" then [""]
    else
      var rest := Split(s[1..], sep);
      if s[0] == sep then [""] + rest else [[s[0]] + rest[0]] + rest[1..]
  }

  lemma {:induction false} SplitFirst(a: string, b: string, sep: char)
    requires sep !in a
    ensures Split(a + [sep] + b, sep) == [a] + Split(b, sep)
  {
    var s := a + [sep] + b;
    if a == "" {
      assert s[1..] == b;
    } else {
      assert s[1..] == a[1..] + [sep] + b;
      SplitFirst(a[1..], b, sep);
      assert [a[0]] + a[1..] == a;
    }
  }

  lemma {:induction false} SplitNone(a: string, sep: char)
    requires sep !in a
    ensures Split(a, sep) == [a]
  {
    if a != "" {
      SplitNone(a[1..], sep);
      assert [a[0]] + a[1..] == a;
    }
  }

  // ---------------------------------------------------------------- entity ids

  type EntityId = string

  function MakeId(domain: string, objectId: string): EntityId {
    domain + "." + objectId
  }

  function Domain(id: EntityId): string {
    Split(id, '.')[0]
  }

  function ObjectId(id: EntityId): string {
    var pieces := Split(id, '.');
    if |pieces| > 1 then pieces[1] else ""
  }

  /** Reading back the parts of an id. The object id survives exactly when it has no dot
      of its own: anything behind a second dot is lost. */
  lemma PartsOfId(domain: string, objectId: string)
    requires '.' !in domain
    ensures Domain(MakeId(domain, objectId)) == domain
    ensures ObjectId(MakeId(domain, objectId)) == objectId <==> '.' !in objectId
  {
    SplitFirst(domain, objectId, '.');
    assert domain + ['.'] + objectId == MakeId(domain, objectId);
    if '.' !in objectId {
      SplitNone(objectId, '.');
    }
  }

  // ---------------------------------------------------------------- wire keys

  const FNV_OFFSET: u32 := 0x811c9dc5
  const FNV_PRIME: nat := 0x01000193

  /** The inverse of the FNV prime modulo 2^32. */
  const FNV_PRIME_INVERSE: nat := 0x359c449b

  function Pow2(n: nat): nat {
    if n == 0 then 1 else 2 * Pow2(n - 1)
  }

  /** Exclusive or of the lowest bits. */
  function Xor(a: nat, b: nat, bits: nat): (x: nat)
    ensures x < Pow2(bits)
  {
    if bits == 0 then 0
    else (if a % 2 == b % 2 then 0 else 1) + 2 * Xor(a / 2, b / 2, bits - 1)
  }

  lemma {:induction false} XorUndone(a: nat, b: nat, bits: nat)
    requires a < Pow2(bits)
    ensures Xor(Xor(a, b, bits), b, bits) == a
  {
    if bits > 0 {
      var half := Xor(a / 2, b / 2, bits - 1);
      XorUndone(a / 2, b / 2, bits - 1);
      LowBit(if a % 2 == b % 2 then 0 else 1, half);
    }
  }

  lemma LowBit(bit: nat, half: nat)
    requires bit < 2
    ensures (bit + 2 * half) / 2 == half && (bit + 2 * half) % 2 == bit
  {
  }

  lemma WordSize()
    ensures Pow2(32) == TWO_32
  {
    assert Pow2(8) == 256;
    assert Pow2(16) == 256 * Pow2(8);
    assert Pow2(24) == 256 * Pow2(16);
  }

  function FnvStep(hash: u32, b: byte): u32 {
    Xor(hash, b, 32) * FNV_PRIME % TWO_32
  }

  function Fnv(bytes: seq<byte>): u32 {
    if bytes == [] then FNV_OFFSET else FnvStep(Fnv(bytes[..|bytes| - 1]), bytes[|bytes| - 1])
  }

  method Fnv1a32(bytes: seq<byte>) returns (hash: u32)
    ensures hash == Fnv(bytes)
  {
    hash := FNV_OFFSET;
    for i := 0 to |bytes|
      invariant hash == Fnv(bytes[..i])
    {
      assert bytes[..i + 1][..i] == bytes[..i];
      var mixed := Xor(hash, bytes[i], 32);
      hash := mixed * FNV_PRIME % TWO_32;
    }
    assert bytes[..|bytes|] == bytes;
  }

  lemma {:induction false} XorZero(a: nat, bits: nat)
    requires a < Pow2(bits)
    ensures Xor(a, 0, bits) == a
  {
    if bits > 0 {
      XorZero(a / 2, bits - 1);
    }
  }

  /** By how much exclusive or with a number of k bits changes another. */
  function Change(a: nat, b: nat, k: nat): int {
    if k == 0 then 0
    else (if b % 2 == 0 then 0 else if a % 2 == 0 then 1 else -1) + 2 * Change(a / 2, b / 2, k - 1)
  }

  lemma {:induction false} XorChanges(a: nat, b: nat, bits: nat, k: nat)
    requires k <= bits && a < Pow2(bits) && b < Pow2(k)
    ensures Xor(a, b, bits) == a + Change(a, b, k)
  {
    if k == 0 {
      XorZero(a, bits);
    } else {
      XorChanges(a / 2, b / 2, bits - 1, k - 1);
    }
  }

  lemma ByteFits()
    ensures Pow2(8) == 256 && Pow2(32) == TWO_32
  {
    WordSize();
  }

  lemma ChangeT()
    ensures Change(2166136261, 116, 8) == -20
  {
    assert Change(135383516, 7, 4) == -1;
    assert Change(541534065, 29, 6) == -5;
  }

  lemma HashT()
    ensures FnvStep(2166136261, 116) == 4044111267
  {
    hide Xor, Change, Pow2;
    ChangeT();
    ByteFits();
    XorChanges(2166136261, 116, 32, 8);
  }

  lemma ChangeE()
    ensures Change(4044111267, 101, 8) == 35
  {
    assert Change(252756954, 6, 4) == 2;
    assert Change(1011027816, 25, 6) == 9;
  }

  lemma HashE()
    ensures FnvStep(4044111267, 101) == 1011170994
  {
    hide Xor, Change, Pow2;
    ChangeE();
    ByteFits();
    XorChanges(4044111267, 101, 32, 8);
  }

  lemma ChangeM()
    ensures Change(1011170994, 109, 8) == 45
  {
    assert Change(63198187, 6, 4) == 2;
    assert Change(252792748, 27, 6) == 11;
  }

  lemma HashM()
    ensures FnvStep(1011170994, 109) == 3221354765
  {
    hide Xor, Change, Pow2;
    ChangeM();
    ByteFits();
    XorChanges(1011170994, 109, 32, 8);
  }

  lemma ChangeP()
    ensures Change(3221354765, 112, 8) == 112
  {
    assert Change(201334672, 7, 4) == 7;
    assert Change(805338691, 28, 6) == 28;
  }

  lemma HashP()
    ensures FnvStep(3221354765, 112) == 3223044039
  {
    hide Xor, Change, Pow2;
    ChangeP();
    ByteFits();
    XorChanges(3221354765, 112, 32, 8);
  }

  /** The known value for "temp". */
  lemma FnvOfTemp()
    ensures Fnv(Utf8("temp")) == 3223044039
  {
    HashT();
    HashE();
    HashM();
    HashP();
    hide FnvStep;
    var all: seq<byte> := [116, 101, 109, 112];
    assert Utf8("temp") == all by {
      assert "temp"[1..] == "emp" && "emp"[1..] == "mp" && "mp"[1..] == "p" && "p"[1..] == "";
      assert Utf8("p") == [112] && Utf8("mp") == [109, 112] && Utf8("emp") == [101, 109, 112];
    }
    assert all[..3] == [116, 101, 109] && [116, 101, 109 as byte][..2] == [116, 101];
    assert [116, 101 as byte][..1] == [116] && [116 as byte][..0] == [];
    assert Fnv([116]) == 4044111267;
    assert Fnv([116, 101]) == 1011170994;
    assert Fnv([116, 101, 109]) == 3221354765;
  }

  lemma FnvStepInjective(h: u32, k: u32, b: byte)
    ensures FnvStep(h, b) == FnvStep(k, b) <==> h == k
  {
    WordSize();
    Cancel(Xor(h, b, 32));
    Cancel(Xor(k, b, 32));
    XorUndone(h, b, 32);
    XorUndone(k, b, 32);
  }

  lemma Cancel(x: nat)
    requires x < TWO_32
    ensures (x * FNV_PRIME % TWO_32) * FNV_PRIME_INVERSE % TWO_32 == x
  {
    var q, r := x * FNV_PRIME / TWO_32, x * FNV_PRIME % TWO_32;
    assert FNV_PRIME * FNV_PRIME_INVERSE == 1 + 3513497 * TWO_32;
    assert r * FNV_PRIME_INVERSE == x + (3513497 * x - q * FNV_PRIME_INVERSE) * TWO_32;
    Reduce(x, 3513497 * x - q * FNV_PRIME_INVERSE);
  }

  lemma Reduce(x: nat, t: int)
    requires x < TWO_32
    ensures (x + t * TWO_32) % TWO_32 == x
  {
  }

  /** Putting the same text behind two names neither makes nor breaks a key collision. */
  lemma {:induction false} FnvSuffix(a: seq<byte>, b: seq<byte>, suffix: seq<byte>)
    ensures Fnv(a + suffix) == Fnv(b + suffix) <==> Fnv(a) == Fnv(b)
  {
    hide FnvStep;
    if suffix == [] {
      assert a + suffix == a && b + suffix == b;
    } else {
      var n := |suffix| - 1;
      FnvSuffix(a, b, suffix[..n]);
      FnvStepInjective(Fnv(a + suffix[..n]), Fnv(b + suffix[..n]), suffix[n]);
      assert (a + suffix)[..|a| + n] == a + suffix[..n];
      assert (b + suffix)[..|b| + n] == b + suffix[..n];
    }
  }

  function Utf8Char(c: char): seq<byte> {
    var n := c as int;
    if n < 0x80 then [n]
    else if n < 0x800 then [0xC0 + n / 0x40, 0x80 + n % 0x40]
    else if n < 0x1_0000 then [0xE0 + n / 0x1000, 0x80 + n / 0x40 % 0x40, 0x80 + n % 0x40]
    else [0xF0 + n / 0x4_0000, 0x80 + n / 0x1000 % 0x40, 0x80 + n / 0x40 % 0x40, 0x80 + n % 0x40]
  }

  /** What a byte says besides its mark. */
  function Bits(b: byte, mark: int): int {
    b - mark
  }

  predicate IsTrail(b: byte) {
    0x80 <= b < 0xC0
  }

  /** The bytes of a character as section 3 of RFC 3629 lays them out: how many there are is
      told by the first, the others are marked as following ones, and six bits of each make up
      the number of the character. */
  lemma Utf8Reads(c: char)
    ensures var b, n := Utf8Char(c), c as int;
      match |b|
      case 1 => b[0] < 0x80 && n == Bits(b[0], 0)
      case 2 => 0xC2 <= b[0] < 0xE0 && IsTrail(b[1]) && n == Bits(b[0], 0xC0) * 0x40 + Bits(b[1], 0x80)
      case 3 =>
        && 0xE0 <= b[0] < 0xF0 && IsTrail(b[1]) && IsTrail(b[2])
        && n == Bits(b[0], 0xE0) * 0x1000 + Bits(b[1], 0x80) * 0x40 + Bits(b[2], 0x80)
      case 4 =>
        && 0xF0 <= b[0] < 0xF5 && IsTrail(b[1]) && IsTrail(b[2]) && IsTrail(b[3])
        && n == Bits(b[0], 0xF0) * 0x4_0000 + Bits(b[1], 0x80) * 0x1000 + Bits(b[2], 0x80) * 0x40 + Bits(b[3], 0x80)
      case _ => false
  {
    var n := c as int;
    if n >= 0x800 {
      SixBits(n);
      if n >= 0x1_0000 {
        SixBits(n / 0x40);
      }
    }
  }

  lemma SixBits(n: nat)
    ensures n == n / 0x1000 * 0x1000 + n / 0x40 % 0x40 * 0x40 + n % 0x40
    ensures n / 0x40 / 0x40 == n / 0x1000 && n / 0x40 / 0x1000 == n / 0x4_0000
  {
  }

  function Utf8(s: string): seq<byte> {
    if s == "" then [] else Utf8Char(s[0]) + Utf8(s[1..])
  }

  /** The key of an entity on the wire: its object id hashed, whatever its domain. */
  function EntityKey(id: EntityId): u32 {
    Fnv(Utf8(ObjectId(id)))
  }

  /** Entities with the same object id in different domains have the same key. */
  lemma DomainsCollide(domain1: string, domain2: string, objectId: string)
    requires '.' !in domain1 && '.' !in domain2
    ensures EntityKey(MakeId(domain1, objectId)) == EntityKey(MakeId(domain2, objectId))
  {
    SplitFirst(domain1, objectId, '.');
    SplitFirst(domain2, objectId, '.');
    assert domain1 + ['.'] + objectId == MakeId(domain1, objectId);
    assert domain2 + ['.'] + objectId == MakeId(domain2, objectId);
  }

  // ---------------------------------------------------------------- slugs

  function NonEmpty(pieces: seq<string>): (kept: seq<string>)
    ensures forall i :: 0 <= i < |kept| ==> kept[i] != "" && kept[i] in pieces
  {
    if pieces == [] then []
    else if pieces[0] == "" then NonEmpty(pieces[1..])
    else [pieces[0]] + NonEmpty(pieces[1..])
  }

  function Join(pieces: seq<string>, sep: char): string {
    if pieces == [] then ""
    else if |pieces| == 1 then pieces[0]
    else pieces[0] + [sep] + Join(pieces[1..], sep)
  }

  function Squeeze(raw: string): string {
    Join(NonEmpty(Split(raw, '_')), '_')
  }

  /** `device_slug`, over whatever lower-casing and alphanumeric test the library has. */
  function DeviceSlug(name: string, lower: string -> string, alphanumeric: char -> bool): string {
    var lowered := lower(name);
    Squeeze(seq(|lowered|, i requires 0 <= i < |lowered| =>
      if alphanumeric(lowered[i]) then lowered[i] else '_'))
  }

  /** No underscore at either end, no two in a row. */
  predicate Clean(s: string) {
    && (s != "" ==> s[0] != '_' && s[|s| - 1] != '_')
    && forall i :: 0 <= i < |s| - 1 ==> !(s[i] == '_' && s[i + 1] == '_')
  }

  lemma {:induction false} JoinClean(pieces: seq<string>)
    requires forall i :: 0 <= i < |pieces| ==> pieces[i] != "" && '_' !in pieces[i]
    ensures Clean(Join(pieces, '_'))
    ensures pieces != [] ==> Join(pieces, '_') != "" && Join(pieces, '_')[0] != '_'
  {
    if pieces != [] {
      var p := pieces[0];
      assert p[0] in p && p[|p| - 1] in p;
      if |pieces| == 1 {
        assert forall i :: 0 <= i < |p| ==> p[i] in p;
      } else {
        JoinClean(pieces[1..]);
        var rest := Join(pieces[1..], '_');
        var s := p + "_" + rest;
        assert Join(pieces, '_') == s;
        forall i | 0 <= i < |s| - 1 ensures !(s[i] == '_' && s[i + 1] == '_') {
          if i < |p| {
            assert s[i] == p[i] && p[i] in p;
          } else if i > |p| {
            assert s[i] == rest[i - |p| - 1] && s[i + 1] == rest[i - |p|];
          }
        }
      }
    }
  }

  lemma SqueezedIsClean(raw: string)
    ensures Clean(Squeeze(raw))
  {
    JoinClean(NonEmpty(Split(raw, '_')));
  }

  /** A slug has no underscore at either end and never two in a row. */
  lemma SlugIsClean(name: string, lower: string -> string, alphanumeric: char -> bool)
    ensures Clean(DeviceSlug(name, lower, alphanumeric))
  {
    var lowered := lower(name);
    SqueezedIsClean(seq(|lowered|, i requires 0 <= i < |lowered| =>
      if alphanumeric(lowered[i]) then lowered[i] else '_'));
  }

  lemma {:induction false} JoinOfSplit(s: string)
    ensures Join(Split(s, '_'), '_') == s
  {
    if s != "" {
      JoinOfSplit(s[1..]);
      var rest := Split(s[1..], '_');
      var pieces := Split(s, '_');
      if s[0] == '_' {
        assert pieces[1..] == rest;
      } else {
        assert pieces[1..] == rest[1..];
        if |rest| > 1 {
          assert Join(rest, '_') == rest[0] + "_" + Join(rest[1..], '_');
        }
      }
    }
  }

  lemma {:induction false} NonEmptyAll(pieces: seq<string>)
    requires forall i :: 0 <= i < |pieces| ==> pieces[i] != ""
    ensures NonEmpty(pieces) == pieces
  {
    if pieces != [] {
      NonEmptyAll(pieces[1..]);
    }
  }

  lemma {:induction false} CleanPieces(s: string)
    requires Clean(s) && s != ""
    ensures forall i :: 0 <= i < |Split(s, '_')| ==> Split(s, '_')[i] != ""
    decreases |s|
  {
    var tail := s[1..];
    if tail == "" {
      assert Split(s, '_') == [[s[0]] + ""] + [];
    } else if tail[0] == '_' {
      var rest := tail[1..];
      assert rest != "" && Clean(rest) by {
        assert s[1] == '_' && s[|s| - 1] != '_';
        assert rest[0] == s[1 + 1];
        forall i | 0 <= i < |rest| - 1 ensures !(rest[i] == '_' && rest[i + 1] == '_') {
          assert rest[i] == s[i + 2] && rest[i + 1] == s[i + 2 + 1];
        }
      }
      CleanPieces(rest);
      assert Split(tail, '_') == [""] + Split(rest, '_');
      assert ([""] + Split(rest, '_'))[1..] == Split(rest, '_');
      assert [s[0]] + "" == [s[0]];
      assert Split(s, '_') == [[s[0]]] + Split(rest, '_');
    } else {
      assert Clean(tail) by {
        forall i | 0 <= i < |tail| - 1 ensures !(tail[i] == '_' && tail[i + 1] == '_') {
          assert tail[i] == s[i + 1] && tail[i + 1] == s[i + 1 + 1];
        }
      }
      CleanPieces(tail);
    }
  }

  /** Squeezing leaves a name alone exactly when it is clean, so slugs are a fixed point. */
  lemma SqueezeFixedPoint(s: string)
    ensures Squeeze(s) == s <==> Clean(s)
  {
    SqueezedIsClean(s);
    if Clean(s) && s != "" {
      CleanPieces(s);
      NonEmptyAll(Split(s, '_'));
      JoinOfSplit(s);
    }
  }

  /** The longest runs of characters that belong to words. */
  function WordsIn(s: string, word: char -> bool): (words: seq<string>)
    ensures s != "" && word(s[0]) ==> words != []
    ensures forall i :: 0 <= i < |words| ==> words[i] != ""
  {
    if s == "" then []
    else if !word(s[0]) then WordsIn(s[1..], word)
    else if |s| > 1 && word(s[1]) then
      var rest := WordsIn(s[1..], word);
      [[s[0]] + rest[0]] + rest[1..]
    else [[s[0]]] + WordsIn(s[1..], word)
  }

  /** The string with everything that does not belong to a word made an underscore. */
  function Blanked(s: string, alphanumeric: char -> bool): (raw: string)
    ensures |raw| == |s|
    ensures forall i :: 0 <= i < |s| ==> raw[i] == if alphanumeric(s[i]) then s[i] else '_'
  {
    seq(|s|, i requires 0 <= i < |s| => if alphanumeric(s[i]) then s[i] else '_')
  }

  lemma {:induction false} PiecesAreWords(s: string, alphanumeric: char -> bool, word: char -> bool)
    requires forall c :: word(c) <==> alphanumeric(c) && c != '_'
    ensures NonEmpty(Split(Blanked(s, alphanumeric), '_')) == WordsIn(s, word)
  {
    var raw := Blanked(s, alphanumeric);
    if s != "" {
      PiecesAreWords(s[1..], alphanumeric, word);
      assert raw[1..] == Blanked(s[1..], alphanumeric);
      var pieces, rest := Split(raw, '_'), Split(raw[1..], '_');
      if raw[0] == '_' {
        assert pieces[0] == "" && pieces[1..] == rest;
      } else {
        assert pieces[0] == [raw[0]] + rest[0] && pieces[1..] == rest[1..];
        if |s| > 1 && word(s[1]) {
          assert rest[0] == [raw[1]] + Split(raw[2..], '_')[0] by { assert raw[1..][1..] == raw[2..]; }
        } else {
          assert rest[0] == "";
          assert [raw[0]] + "" == [raw[0]];
        }
      }
    }
  }

  /** A slug is the words of the lowered name, joined by single underscores. */
  lemma SlugJoinsWords(name: string, lower: string -> string, alphanumeric: char -> bool)
    ensures var word := c => alphanumeric(c) && c != '_';
      DeviceSlug(name, lower, alphanumeric) == Join(WordsIn(lower(name), word), '_')
  {
    var word := c => alphanumeric(c) && c != '_';
    var lowered := lower(name);
    PiecesAreWords(lowered, alphanumeric, word);
    assert Blanked(lowered, alphanumeric) == seq(|lowered|, i requires 0 <= i < |lowered| =>
      if alphanumeric(lowered[i]) then lowered[i] else '_');
  }

  lemma {:induction false} JoinedFrom(pieces: seq<string>, sep: char, c: char)
    requires c in Join(pieces, sep)
    ensures c == sep || exists i :: 0 <= i < |pieces| && c in pieces[i]
  {
    if |pieces| > 1 && c !in pieces[0] && c != sep {
      assert Join(pieces, sep) == pieces[0] + [sep] + Join(pieces[1..], sep);
      JoinedFrom(pieces[1..], sep, c);
      var i :| 0 <= i < |pieces[1..]| && c in pieces[1..][i];
      assert c in pieces[i + 1];
    }
  }

  lemma {:induction false} WordsAreWords(s: string, word: char -> bool, i: nat, c: char)
    requires i < |WordsIn(s, word)| && c in WordsIn(s, word)[i]
    ensures c in s && word(c)
  {
    if !word(s[0]) {
      WordsAreWords(s[1..], word, i, c);
    } else if |s| > 1 && word(s[1]) {
      if i > 0 || c in WordsIn(s[1..], word)[0] {
        WordsAreWords(s[1..], word, i, c);
      }
    } else if i > 0 {
      WordsAreWords(s[1..], word, i - 1, c);
    }
  }

  /** A name is its own slug, but for the case of its letters, exactly if it has nothing but
      alphanumeric characters and single underscores between them. */
  lemma SlugKeepsIff(name: string, lower: string -> string, alphanumeric: char -> bool)
    ensures DeviceSlug(name, lower, alphanumeric) == lower(name)
      <==> Clean(lower(name)) && forall c :: c in lower(name) ==> alphanumeric(c) || c == '_'
  {
    var lowered, word := lower(name), c => alphanumeric(c) && c != '_';
    var raw := Blanked(lowered, alphanumeric);
    assert DeviceSlug(name, lower, alphanumeric) == Squeeze(raw) by {
      assert raw == seq(|lowered|, i requires 0 <= i < |lowered| =>
        if alphanumeric(lowered[i]) then lowered[i] else '_');
    }
    if forall c :: c in lowered ==> alphanumeric(c) || c == '_' {
      assert raw == lowered;
      SqueezeFixedPoint(lowered);
    } else {
      var c :| c in lowered && !alphanumeric(c) && c != '_';
      PiecesAreWords(lowered, alphanumeric, word);
      if c in Join(WordsIn(lowered, word), '_') {
        JoinedFrom(WordsIn(lowered, word), '_', c);
        var i :| 0 <= i < |WordsIn(lowered, word)| && c in WordsIn(lowered, word)[i];
        WordsAreWords(lowered, word, i, c);
        assert false;
      }
    }
  }

  // ---------------------------------------------------------------- local names

  /** The object id an imported entity gets on this side of the link. */
  function LocalName(slug: string, objectId: string): string {
    slug + "__" + objectId
  }

  lemma RunIsUnclean(s: string, n: nat)
    requires n < |s| && s[n] == '_' && (n + 1 < |s| ==> s[n + 1] == '_')
    ensures !Clean(s)
  {
  }

  lemma LocalNameSplits(slug1: string, object1: string, slug2: string, object2: string)
    requires Clean(slug1) && Clean(slug2) && |slug1| <= |slug2|
    requires LocalName(slug1, object1) == LocalName(slug2, object2)
    ensures slug1 == slug2 && object1 == object2
  {
    var s := LocalName(slug1, object1);
    var n := |slug1|;
    assert s[n] == '_' && s[n + 1] == '_';
    assert forall i :: 0 <= i < |slug2| ==> slug2[i] == s[i];
    hide Clean;
    if n < |slug2| {
      RunIsUnclean(slug2, n);
    }
    assert s[..n] == slug1 && s[..|slug2|] == slug2;
    assert s[n + 2..] == object1;
    assert LocalName(slug2, object2)[|slug2| + 2..] == object2;
  }

  /** A local name determines the slug and the object id it was made from, for every
      object id whatever, underscores included. */
  lemma LocalNameInjective(name1: string, object1: string, name2: string, object2: string,
                           lower: string -> string, alphanumeric: char -> bool)
    ensures var slug1, slug2 := DeviceSlug(name1, lower, alphanumeric), DeviceSlug(name2, lower, alphanumeric);
      LocalName(slug1, object1) == LocalName(slug2, object2) <==> slug1 == slug2 && object1 == object2
  {
    hide DeviceSlug;
    var slug1, slug2 := DeviceSlug(name1, lower, alphanumeric), DeviceSlug(name2, lower, alphanumeric);
    SlugIsClean(name1, lower, alphanumeric);
    SlugIsClean(name2, lower, alphanumeric);
    if LocalName(slug1, object1) == LocalName(slug2, object2) {
      if |slug1| <= |slug2| {
        LocalNameSplits(slug1, object1, slug2, object2);
      } else {
        LocalNameSplits(slug2, object2, slug1, object1);
      }
    }
  }

  /** The local entity id of something a device lists. */
  function LocalId(slug: string, domain: string, objectId: string): EntityId {
    MakeId(domain, LocalName(slug, objectId))
  }

  lemma {:induction false} MakeIdInjective(d1: string, o1: string, d2: string, o2: string)
    requires '.' !in d1 && '.' !in d2
    requires MakeId(d1, o1) == MakeId(d2, o2)
    ensures d1 == d2 && o1 == o2
  {
    PartsOfId(d1, o1);
    PartsOfId(d2, o2);
    assert MakeId(d1, o1)[|d1| + 1..] == o1;
    assert MakeId(d2, o2)[|d2| + 1..] == o2;
  }

  /** Two devices can ever share an entity id, in these domains, exactly when the domains are
      the same and so are the slugs of their names. */
  lemma SharedIdIffSameSlug(name1: string, name2: string, domain1: string, domain2: string,
                            lower: string -> string, alphanumeric: char -> bool)
    requires '.' !in domain1 && '.' !in domain2
    ensures var slug1, slug2 := DeviceSlug(name1, lower, alphanumeric), DeviceSlug(name2, lower, alphanumeric);
      slug1 == slug2 && domain1 == domain2
      <==> exists o1, o2 :: LocalId(slug1, domain1, o1) == LocalId(slug2, domain2, o2)
  {
    hide DeviceSlug;
    var slug1, slug2 := DeviceSlug(name1, lower, alphanumeric), DeviceSlug(name2, lower, alphanumeric);
    if o1, o2 :| LocalId(slug1, domain1, o1) == LocalId(slug2, domain2, o2) {
      MakeIdInjective(domain1, LocalName(slug1, o1), domain2, LocalName(slug2, o2));
      LocalNameInjective(name1, o1, name2, o2, lower, alphanumeric);
    }
    if slug1 == slug2 && domain1 == domain2 {
      assert LocalId(slug1, domain1, "") == LocalId(slug2, domain2, "");
    }
  }
}
