/** KLEE's test case files: a writer, a reader, and the proof that the reader understands the writer and nothing shorter. */
module KTests {
  type Octet = b: nat | b < 256
  type Word = w: nat | w < 0x1_0000_0000

  type Bytes = seq<Octet>

  const VERSION: Word := 3
  /** The letters KTEST, and the BOUT of older files with a line feed. */
  const MAGIC: Bytes := [75, 84, 69, 83, 84]
  const OLD_MAGIC: Bytes := [66, 79, 85, 84, 10]

  datatype KTestObject = KTestObject(name: Bytes, bytes: Bytes)

  datatype KTest = KTest(version: Word, args: seq<Bytes>, symArgvs: Word, symArgvLen: Word, objects: seq<KTestObject>)

  /** Counts and lengths are 32 bit words, and strings have no NUL inside. */
  predicate Storable(k: KTest) {
    && |k.args| < 0x1_0000_0000 && |k.objects| < 0x1_0000_0000
    && (forall s :: s in k.args ==> IsString(s)) && (forall o :: o in k.objects ==> IsObject(o))
  }

  predicate IsObject(o: KTestObject) { IsString(o.name) && |o.bytes| < 0x1_0000_0000 }

  predicate HasBytes(o: KTestObject) { o.name != [] && o.bytes != [] }

  predicate IsString(s: Bytes) { |s| < 0x1_0000_0000 && 0 !in s }

  /** fwrite and fread of an item without bytes report failure. */
  predicate Writable(k: KTest) {
    (forall s :: s in k.args ==> s != []) && forall o :: o in k.objects ==> HasBytes(o)
  }

  // ----- the format

  /** A word, its highest byte first. */
  function PutWord(n: Word): (r: Bytes)
    ensures |r| == 4
  {
    [n / 0x100_0000, n / 0x1_0000 % 0x100, n / 0x100 % 0x100, n % 0x100]
  }

  function PutString(s: Bytes): Bytes
    requires |s| < 0x1_0000_0000
  {
    PutWord(|s|) + s
  }

  function PutStrings(ss: seq<Bytes>): Bytes
    requires forall s :: s in ss ==> IsString(s)
  {
    if ss == [] then [] else
      assert IsString(ss[0]);
      PutString(ss[0]) + PutStrings(ss[1..])
  }

  function PutObject(o: KTestObject): Bytes
    requires IsObject(o)
  {
    PutString(o.name) + PutString(o.bytes)
  }

  function PutObjects(os: seq<KTestObject>): Bytes
    requires forall o :: o in os ==> IsObject(o)
  {
    if os == [] then [] else PutObject(os[0]) + PutObjects(os[1..])
  }

  function Encode(k: KTest): Bytes
    requires Storable(k)
  {
    MAGIC + PutWord(VERSION) + PutWord(|k.args|) + PutStrings(k.args) + PutWord(k.symArgvs) + PutWord(k.symArgvLen)
    + PutWord(|k.objects|) + PutObjects(k.objects)
  }

  /** What was read, and where the reader stands afterwards. */
  datatype Parsed<+T> = Fail | Done(value: T, pos: nat)

  function GetBytes(data: Bytes, pos: nat, n: nat): (r: Parsed<Bytes>)
    ensures r.Done? ==> pos < r.pos <= |data|
  {
    if n == 0 || pos + n > |data| then Fail else Done(data[pos..pos + n], pos + n)
  }

  /** Another byte at the low end. */
  function Shift(high: nat, low: nat): nat { high * 0x100 + low }

  function GetWord(data: Bytes, pos: nat): (r: Parsed<Word>)
    ensures r.Done? ==> pos < r.pos <= |data|
  {
    if pos + 4 > |data| then Fail
    else Done(Shift(Shift(Shift(data[pos], data[pos + 1]), data[pos + 2]), data[pos + 3]), pos + 4)
  }

  function GetString(data: Bytes, pos: nat): (r: Parsed<Bytes>)
    ensures r.Done? ==> pos < r.pos <= |data|
  {
    match GetWord(data, pos)
    case Fail => Fail
    case Done(len, p) => GetBytes(data, p, len)
  }

  function GetStrings(data: Bytes, pos: nat, n: nat): (r: Parsed<seq<Bytes>>)
    requires pos <= |data|
    ensures r.Done? ==> pos <= r.pos <= |data| && |r.value| == n
    decreases n
  {
    if n == 0 then Done([], pos)
    else match GetString(data, pos)
      case Fail => Fail
      case Done(s, p) =>
        Prepend([s], GetStrings(data, p, n - 1))
  }

  function GetObject(data: Bytes, pos: nat): (r: Parsed<KTestObject>)
    ensures r.Done? ==> pos < r.pos <= |data|
  {
    match GetString(data, pos)
    case Fail => Fail
    case Done(name, p) =>
      match GetString(data, p)
      case Fail => Fail
      case Done(bytes, q) => Done(KTestObject(name, bytes), q)
  }

  function GetObjects(data: Bytes, pos: nat, n: nat): (r: Parsed<seq<KTestObject>>)
    requires pos <= |data|
    ensures r.Done? ==> pos <= r.pos <= |data| && |r.value| == n
    decreases n
  {
    if n == 0 then Done([], pos)
    else match GetObject(data, pos)
      case Fail => Fail
      case Done(o, p) =>
        Prepend([o], GetObjects(data, p, n - 1))
  }

  /** Files before version 2 have no symbolic arguments. */
  function GetSymArgs(data: Bytes, pos: nat, version: Word): (r: Parsed<(Word, Word)>)
    requires pos <= |data|
    ensures r.Done? ==> pos <= r.pos <= |data|
  {
    if version < 2 then Done((0, 0), pos)
    else match GetWord(data, pos)
      case Fail => Fail
      case Done(a, p) =>
        match GetWord(data, p)
        case Fail => Fail
        case Done(b, q) => Done((a, b), q)
  }

  /** The header, and where the arguments begin. */
  function GetHeader(data: Bytes): (r: Parsed<Word>)
    ensures r.Done? ==> r.pos <= |data| && r.value <= VERSION
  {
    match GetBytes(data, 0, |MAGIC|)
    case Fail => Fail
    case Done(magic, p) =>
      if magic != MAGIC && magic != OLD_MAGIC then Fail
      else match GetWord(data, p)
        case Fail => Fail
        case Done(version, q) => if version > VERSION then Fail else Done(version, q)
  }

  function Decode(data: Bytes): (r: Parsed<KTest>)
  {
    match GetHeader(data)
    case Fail => Fail
    case Done(version, p0) =>
      match GetWord(data, p0)
      case Fail => Fail
      case Done(numArgs, p1) =>
        match GetStrings(data, p1, numArgs)
        case Fail => Fail
        case Done(args, p2) =>
          match GetSymArgs(data, p2, version)
          case Fail => Fail
          case Done(sym, p3) =>
            match GetWord(data, p3)
            case Fail => Fail
            case Done(numObjects, p4) =>
              match GetObjects(data, p4, numObjects)
              case Fail => Fail
              case Done(objects, p5) => Done(KTest(version, args, sym.0, sym.1, objects), p5)
  }

  // ----- a file, byte by byte

  lemma SampleWords()
    ensures PutWord(1) == [0, 0, 0, 1] && PutWord(2) == [0, 0, 0, 2] && PutWord(3) == [0, 0, 0, 3]
    ensures PutWord(0x0102_0304) == [1, 2, 3, 4]
  {
  }

  /** A file as it is written: the magic, the version, one argument, the symbolic arguments and one object. */
  lemma SampleFile(k: KTest)
    requires k == KTest(0, [[112]], 0x0102_0304, 2, [KTestObject([97, 98], [7])])
    ensures Storable(k) && Encode(k) ==
      [75, 84, 69, 83, 84] + [0, 0, 0, 3] + [0, 0, 0, 1] + [0, 0, 0, 1, 112] + [1, 2, 3, 4] + [0, 0, 0, 2] +
      [0, 0, 0, 1] + ([0, 0, 0, 2, 97, 98] + [0, 0, 0, 1, 7])
  {
    SampleWords();
    hide PutWord;
    assert PutString([112]) == [0, 0, 0, 1, 112] && PutString([97, 98]) == [0, 0, 0, 2, 97, 98] && PutString([7]) == [0, 0, 0, 1, 7];
    assert PutStrings([[112]][1..]) == [] && PutObjects(k.objects[1..]) == [];
    assert PutStrings([[112]]) == PutString([112]) + [] && PutObjects(k.objects) == PutObject(k.objects[0]) + [];
  }

  // ----- what is written is read back

  /** `part` lies in the data at this place. */
  predicate Here(data: Bytes, pos: nat, part: Bytes) { pos + |part| <= |data| && data[pos..pos + |part|] == part }

  lemma HereSplit(data: Bytes, pos: nat, a: Bytes, b: Bytes)
    requires Here(data, pos, a + b)
    ensures Here(data, pos, a) && Here(data, pos + |a|, b)
  {
    var whole := data[pos..pos + |a + b|];
    assert data[pos..pos + |a|] == whole[..|a|] && (a + b)[..|a|] == a;
    assert data[pos + |a|..pos + |a| + |b|] == whole[|a|..] && (a + b)[|a|..] == b;
  }

  lemma WordRead(data: Bytes, pos: nat, n: Word)
    requires Here(data, pos, PutWord(n))
    ensures GetWord(data, pos) == Done(n, pos + 4)
  {
    var w := data[pos..pos + 4];
    assert w[0] == data[pos] && w[1] == data[pos + 1] && w[2] == data[pos + 2] && w[3] == data[pos + 3];
    Digits(n);
  }

  lemma Digits(n: Word)
    ensures Shift(Shift(Shift(n / 0x100_0000, n / 0x1_0000 % 0x100), n / 0x100 % 0x100), n % 0x100) == n
  {
    ByteOff(n);
    ByteOff(n / 0x100);
    ByteOff(n / 0x1_0000);
    assert n / 0x1_0000 == n / 0x100 / 0x100;
    assert n / 0x100_0000 == n / 0x1_0000 / 0x100;
    hide Shift;
  }

  /** A word is written with its highest byte first. */
  lemma HighestFirst(n: Word)
    ensures var r := PutWord(n);
      n == (r[0] as nat) * 0x100_0000 + (r[1] as nat) * 0x1_0000 + (r[2] as nat) * 0x100 + r[3] as nat
  {
    Digits(n);
    Weighted(n / 0x100_0000, n / 0x1_0000 % 0x100, n / 0x100 % 0x100, n % 0x100);
    hide Shift;
  }

  lemma Weighted(a: nat, b: nat, c: nat, d: nat)
    ensures Shift(Shift(Shift(a, b), c), d) == a * 0x100_0000 + b * 0x1_0000 + c * 0x100 + d
  {
  }

  lemma ByteOff(n: nat)
    ensures Shift(n / 0x100, n % 0x100) == n
  {
  }

  lemma StringRead(data: Bytes, pos: nat, s: Bytes)
    requires 0 < |s| < 0x1_0000_0000 && Here(data, pos, PutString(s))
    ensures GetString(data, pos) == Done(s, pos + 4 + |s|)
  {
    HereSplit(data, pos, PutWord(|s|), s);
    WordRead(data, pos, |s|);
  }

  lemma {:induction false} StringsRead(data: Bytes, pos: nat, ss: seq<Bytes>)
    requires forall s :: s in ss ==> IsString(s) && s != []
    requires Here(data, pos, PutStrings(ss))
    ensures GetStrings(data, pos, |ss|) == Done(ss, pos + |PutStrings(ss)|)
    decreases |ss|
  {
    hide GetString;
    if ss != [] {
      assert IsString(ss[0]) && ss[0] != [];
      HereSplit(data, pos, PutString(ss[0]), PutStrings(ss[1..]));
      StringRead(data, pos, ss[0]);
      StringsRead(data, pos + |PutString(ss[0])|, ss[1..]);
      assert ss == [ss[0]] + ss[1..];
    }
  }

  lemma EmptyHere(data: Bytes, pos: nat)
    requires Here(data, pos, [])
    ensures pos <= |data|
  {
  }

  lemma ObjectRead(data: Bytes, pos: nat, o: KTestObject)
    requires IsObject(o) && HasBytes(o) && Here(data, pos, PutObject(o))
    ensures GetObject(data, pos) == Done(o, pos + |PutObject(o)|)
  {
    HereSplit(data, pos, PutString(o.name), PutString(o.bytes));
    StringRead(data, pos, o.name);
    StringRead(data, pos + |PutString(o.name)|, o.bytes);
  }

  lemma {:induction false} ObjectsRead(data: Bytes, pos: nat, os: seq<KTestObject>)
    requires forall o :: o in os ==> IsObject(o) && HasBytes(o)
    requires Here(data, pos, PutObjects(os))
    ensures GetObjects(data, pos, |os|) == Done(os, pos + |PutObjects(os)|)
    decreases |os|
  {
    hide GetObject, PutObject, IsObject, HasBytes, Here;
    if os == [] {
      EmptyHere(data, pos);
    } else {
      assert os[0] in os && IsObject(os[0]) && HasBytes(os[0]);
      HereSplit(data, pos, PutObject(os[0]), PutObjects(os[1..]));
      ObjectRead(data, pos, os[0]);
      ObjectsRead(data, pos + |PutObject(os[0])|, os[1..]);
      assert os == [os[0]] + os[1..];
    }
  }

  /** The parts of a file, one after the other. */
  lemma Layout(k: KTest)
    requires Storable(k)
    ensures var d := Encode(k);
      var p, q := 13 + |PutStrings(k.args)|, 13 + |PutStrings(k.args)| + 12;
      && |d| == q + |PutObjects(k.objects)|
      && Here(d, 0, MAGIC) && Here(d, 5, PutWord(VERSION)) && Here(d, 9, PutWord(|k.args|)) && Here(d, 13, PutStrings(k.args))
      && Here(d, p, PutWord(k.symArgvs)) && Here(d, p + 4, PutWord(k.symArgvLen)) && Here(d, p + 8, PutWord(|k.objects|))
      && Here(d, q, PutObjects(k.objects))
  {
    hide PutWord, PutStrings, PutObjects;
    var a, b := MAGIC + PutWord(VERSION) + PutWord(|k.args|) + PutStrings(k.args), PutWord(k.symArgvs);
    var c, e := PutWord(k.symArgvLen), PutWord(|k.objects|);
    var f := PutObjects(k.objects);
    assert Here(Encode(k), 0, a + b + c + e + f);
    hide Here;
    var d := Encode(k);
    HereSplit(d, 0, a + b + c + e, f);
    HereSplit(d, 0, a + b + c, e);
    HereSplit(d, 0, a + b, c);
    HereSplit(d, 0, a, b);
    HereSplit(d, 0, MAGIC + PutWord(VERSION) + PutWord(|k.args|), PutStrings(k.args));
    HereSplit(d, 0, MAGIC + PutWord(VERSION), PutWord(|k.args|));
    HereSplit(d, 0, MAGIC, PutWord(VERSION));
  }

  /** The reader understands the writer, and consumes every byte. */
  lemma RoundTrip(k: KTest)
    requires Storable(k) && Writable(k)
    ensures Decode(Encode(k)) == Done(k.(version := VERSION), |Encode(k)|)
  {
    hide PutWord, PutStrings, PutObjects, GetWord, GetStrings, GetObjects, Here, Encode;
    Layout(k);
    var d := Encode(k);
    var p := 13 + |PutStrings(k.args)|;
    MagicRead(d);
    WordRead(d, 5, VERSION);
    WordRead(d, 9, |k.args|);
    StringsRead(d, 13, k.args);
    WordRead(d, p, k.symArgvs);
    WordRead(d, p + 4, k.symArgvLen);
    WordRead(d, p + 8, |k.objects|);
    ObjectsRead(d, p + 12, k.objects);
  }

  lemma MagicRead(data: Bytes)
    requires Here(data, 0, MAGIC)
    ensures GetBytes(data, 0, |MAGIC|) == Done(MAGIC, 5)
  {
  }

  lemma AnyMagicRead(data: Bytes, magic: Bytes)
    requires (magic == MAGIC || magic == OLD_MAGIC) && Here(data, 0, magic)
    ensures GetBytes(data, 0, |MAGIC|) == Done(magic, 5)
  {
  }

  /** Files of every version up to the current one are read, with either magic; those before version 2 have no symbolic
      arguments. */
  lemma OlderFilesRead(data: Bytes, magic: Bytes, k: KTest)
    requires Storable(k) && Writable(k) && k.version <= VERSION && (magic == MAGIC || magic == OLD_MAGIC)
    requires k.version < 2 ==> k.symArgvs == k.symArgvLen == 0
    requires Here(data, 0, magic) && Here(data, 5, PutWord(k.version)) && Here(data, 9, PutWord(|k.args|))
    requires var p := 13 + |PutStrings(k.args)|; var q := if k.version < 2 then p else p + 8;
      && Here(data, 13, PutStrings(k.args))
      && (k.version >= 2 ==> Here(data, p, PutWord(k.symArgvs)) && Here(data, p + 4, PutWord(k.symArgvLen)))
      && Here(data, q, PutWord(|k.objects|)) && Here(data, q + 4, PutObjects(k.objects))
    ensures var p := 13 + |PutStrings(k.args)|; var q := if k.version < 2 then p else p + 8;
      Decode(data) == Done(k, q + 4 + |PutObjects(k.objects)|)
  {
    hide PutWord, PutStrings, PutObjects, GetWord, GetStrings, GetObjects, Here;
    var p := 13 + |PutStrings(k.args)|;
    var q := if k.version < 2 then p else p + 8;
    AnyMagicRead(data, magic);
    WordRead(data, 5, k.version);
    WordRead(data, 9, |k.args|);
    StringsRead(data, 13, k.args);
    if k.version >= 2 {
      WordRead(data, p, k.symArgvs);
      WordRead(data, p + 4, k.symArgvLen);
    }
    WordRead(data, q, |k.objects|);
    ObjectsRead(data, q + 4, k.objects);
  }

  // ----- nothing shorter is understood

  /** A reader that needed the bytes up to `e` gives the same result on any file that has them, and fails on a shorter one. */
  predicate Cut<T(==)>(whole: Parsed<T>, part: Parsed<T>, m: nat) {
    whole.Done? ==> part == if whole.pos <= m then whole else Fail
  }

  lemma BytesCut(data: Bytes, m: nat, pos: nat, n: nat)
    requires m <= |data|
    ensures Cut(GetBytes(data, pos, n), GetBytes(data[..m], pos, n), m)
  {
    if n > 0 && pos + n <= m {
      assert data[..m][pos..pos + n] == data[pos..pos + n];
    }
  }

  lemma WordCut(data: Bytes, m: nat, pos: nat)
    requires m <= |data|
    ensures Cut(GetWord(data, pos), GetWord(data[..m], pos), m)
  {
  }

  lemma StringCut(data: Bytes, m: nat, pos: nat)
    requires m <= |data|
    ensures Cut(GetString(data, pos), GetString(data[..m], pos), m)
  {
    WordCut(data, m, pos);
    if GetWord(data, pos).Done? {
      BytesCut(data, m, pos + 4, GetWord(data, pos).value);
    }
    hide GetWord, GetBytes;
  }

  lemma {:induction false} StringsCut(data: Bytes, m: nat, pos: nat, n: nat)
    requires pos <= m <= |data|
    ensures Cut(GetStrings(data, pos, n), GetStrings(data[..m], pos, n), m)
    decreases n
  {
    hide GetString;
    if n > 0 {
      StringCut(data, m, pos);
      var first := GetString(data, pos);
      if first.Done? && first.pos <= m {
        StringsCut(data, m, first.pos, n - 1);
      }
    }
  }

  lemma ObjectCut(data: Bytes, m: nat, pos: nat)
    requires m <= |data|
    ensures Cut(GetObject(data, pos), GetObject(data[..m], pos), m)
  {
    hide GetString;
    StringCut(data, m, pos);
    if GetString(data, pos).Done? {
      StringCut(data, m, GetString(data, pos).pos);
    }
  }

  lemma {:induction false} ObjectsCut(data: Bytes, m: nat, pos: nat, n: nat)
    requires pos <= m <= |data|
    ensures Cut(GetObjects(data, pos, n), GetObjects(data[..m], pos, n), m)
    decreases n
  {
    hide GetObject;
    if n > 0 {
      ObjectCut(data, m, pos);
      var first := GetObject(data, pos);
      if first.Done? && first.pos <= m {
        ObjectsCut(data, m, first.pos, n - 1);
      }
    }
  }

  lemma SymArgsCut(data: Bytes, m: nat, pos: nat, version: Word)
    requires pos <= m <= |data|
    ensures Cut(GetSymArgs(data, pos, version), GetSymArgs(data[..m], pos, version), m)
  {
    hide GetWord;
    WordCut(data, m, pos);
    WordCut(data, m, pos + 4);
    FourBytes(data, pos);
  }

  lemma FourBytes(data: Bytes, pos: nat)
    ensures GetWord(data, pos).Done? ==> GetWord(data, pos).pos == pos + 4
  {
  }

  lemma HeaderCut(data: Bytes, m: nat)
    requires m <= |data|
    ensures Cut(GetHeader(data), GetHeader(data[..m]), m)
  {
    hide GetWord, GetBytes;
    BytesCut(data, m, 0, |MAGIC|);
    var magic := GetBytes(data, 0, |MAGIC|);
    if magic.Done? {
      WordCut(data, m, magic.pos);
    }
  }

  /** On a shorter file the reader fails where it would have read on. */
  lemma DecodeCut(data: Bytes, m: nat)
    requires m <= |data|
    ensures Cut(Decode(data), Decode(data[..m]), m)
  {
    hide GetWord, GetHeader, GetStrings, GetObjects, GetSymArgs;
    HeaderCut(data, m);
    var h := GetHeader(data);
    if h.Fail? || h.pos > m { return; }
    WordCut(data, m, h.pos);
    var n := GetWord(data, h.pos);
    if n.Fail? || n.pos > m { return; }
    StringsCut(data, m, n.pos, n.value);
    var a := GetStrings(data, n.pos, n.value);
    if a.Fail? || a.pos > m { return; }
    SymArgsCut(data, m, a.pos, h.value);
    var y := GetSymArgs(data, a.pos, h.value);
    if y.Fail? || y.pos > m { return; }
    WordCut(data, m, y.pos);
    var o := GetWord(data, y.pos);
    if o.Fail? || o.pos > m { return; }
    ObjectsCut(data, m, o.pos, o.value);
  }

  /** No proper beginning of a written file can be read. */
  lemma NoPrefixParses(k: KTest, m: nat)
    requires Storable(k) && Writable(k) && m < |Encode(k)|
    ensures Decode(Encode(k)[..m]).Fail?
  {
    hide Decode, Encode;
    RoundTrip(k);
    DecodeCut(Encode(k), m);
  }

  // ----- the code

  /** What was read earlier comes first. */
  function Prepend<T>(head: seq<T>, rest: Parsed<seq<T>>): Parsed<seq<T>> {
    match rest case Fail => Fail case Done(v, p) => Done(head + v, p)
  }

  lemma PrependNone<T>(rest: Parsed<seq<T>>)
    ensures Prepend([], rest) == rest
  {
    if rest.Done? {
      assert [] + rest.value == rest.value;
    }
  }

  lemma PrependOne<T>(head: seq<T>, x: T, rest: Parsed<seq<T>>)
    ensures Prepend(head, Prepend([x], rest)) == Prepend(head + [x], rest)
  {
    if rest.Done? {
      assert head + ([x] + rest.value) == head + [x] + rest.value;
    }
  }

  lemma {:induction false} PutStringsLast(ss: seq<Bytes>, s: Bytes)
    requires IsString(s) && forall t :: t in ss ==> IsString(t)
    ensures PutStrings(ss + [s]) == PutStrings(ss) + PutString(s)
    decreases |ss|
  {
    hide PutString;
    if ss != [] {
      assert (ss + [s])[1..] == ss[1..] + [s];
      PutStringsLast(ss[1..], s);
    }
  }

  lemma {:induction false} PutObjectsLast(os: seq<KTestObject>, o: KTestObject)
    requires IsObject(o) && forall p :: p in os ==> IsObject(p)
    ensures PutObjects(os + [o]) == PutObjects(os) + PutObject(o)
    decreases |os|
  {
    hide PutObject;
    if os != [] {
      assert (os + [o])[1..] == os[1..] + [o];
      PutObjectsLast(os[1..], o);
    }
  }

  class File {
    var data: Bytes
    var pos: nat

    constructor (data: Bytes)
      ensures this.data == data && pos == 0
    {
      this.data, pos := data, 0;
    }

    /** fwrite of one item of this size: without bytes there is no item. */
    method Write(bytes: Bytes) returns (ok: bool)
      modifies this`data
      ensures data == old(data) + bytes && (ok <==> bytes != [])
    {
      data := data + bytes;
      ok := bytes != [];
    }

    method WriteWord(n: Word) returns (ok: bool)
      modifies this`data
      ensures ok && data == old(data) + PutWord(n)
    {
      ok := Write([n / 0x100_0000, n / 0x1_0000 % 0x100, n / 0x100 % 0x100, n % 0x100]);
    }

    method WriteString(s: Bytes) returns (ok: bool)
      requires |s| < 0x1_0000_0000
      modifies this`data
      ensures (ok <==> s != []) && data == old(data) + PutString(s)
    {
      ok := WriteWord(|s|);
      ok := Write(s);
    }

    method Read(n: nat) returns (ok: bool, bytes: Bytes)
      modifies this`pos
      ensures match GetBytes(data, old(pos), n) case Fail => !ok case Done(v, p) => ok && bytes == v && pos == p
    {
      ok, bytes := n != 0 && pos + n <= |data|, [];
      if ok {
        bytes, pos := data[pos..pos + n], pos + n;
      }
    }

    method ReadWord() returns (ok: bool, n: Word)
      modifies this`pos
      ensures match GetWord(data, old(pos)) case Fail => !ok case Done(v, p) => ok && n == v && pos == p
    {
      n := 0;
      var bytes;
      ok, bytes := Read(4);
      if ok {
        n := Shift(Shift(Shift(bytes[0], bytes[1]), bytes[2]), bytes[3]);
      }
    }

    method ReadString() returns (ok: bool, s: Bytes)
      modifies this`pos
      ensures match GetString(data, old(pos)) case Fail => !ok case Done(v, p) => ok && s == v && pos == p
    {
      var n;
      s := [];
      ok, n := ReadWord();
      if ok {
        ok, s := Read(n);
      }
    }

    method WriteStrings(ss: seq<Bytes>) returns (ok: bool)
      requires forall s :: s in ss ==> IsString(s)
      modifies this`data
      ensures ok <==> forall s :: s in ss ==> s != []
      ensures ok ==> data == old(data) + PutStrings(ss)
    {
      for i := 0 to |ss|
        invariant (forall s :: s in ss[..i] ==> s != []) && data == old(data) + PutStrings(ss[..i])
      {
        assert ss[i] in ss && IsString(ss[i]) && ss[..i + 1] == ss[..i] + [ss[i]];
        PutStringsLast(ss[..i], ss[i]);
        ok := WriteString(ss[i]);
        if !ok { return; }
      }
      assert ss[..|ss|] == ss;
      ok := true;
    }

    method WriteObject(o: KTestObject) returns (ok: bool)
      requires IsObject(o)
      modifies this`data
      ensures (ok <==> HasBytes(o)) && (ok ==> data == old(data) + PutObject(o))
    {
      hide PutWord;
      ok := WriteString(o.name);
      if !ok { return; }
      ok := WriteWord(|o.bytes|);
      ok := Write(o.bytes);
    }

    method WriteObjects(os: seq<KTestObject>) returns (ok: bool)
      requires forall o :: o in os ==> IsObject(o)
      modifies this`data
      ensures ok <==> forall o :: o in os ==> HasBytes(o)
      ensures ok ==> data == old(data) + PutObjects(os)
    {
      for i := 0 to |os|
        invariant (forall o :: o in os[..i] ==> HasBytes(o)) && data == old(data) + PutObjects(os[..i])
      {
        hide PutObject, PutObjects, IsObject, HasBytes;
        assert os[i] in os && os[..i + 1] == os[..i] + [os[i]];
        PutObjectsLast(os[..i], os[i]);
        ok := WriteObject(os[i]);
        if !ok { return; }
      }
      assert os[..|os|] == os;
      ok := true;
    }

    /** kTest_toFile: succeeds unless a string or an object is empty. */
    method ToFile(k: KTest) returns (ok: bool)
      requires Storable(k) && data == []
      modifies this`data
      ensures ok <==> Writable(k)
      ensures ok ==> data == Encode(k)
    {
      hide PutWord, PutStrings, PutObjects;
      ok := Write(MAGIC);
      assert data == MAGIC;
      ok := WriteWord(VERSION);
      ok := WriteWord(|k.args|);
      ok := WriteStrings(k.args);
      if !ok { return; }
      ok := WriteWord(k.symArgvs);
      ok := WriteWord(k.symArgvLen);
      ok := WriteWord(|k.objects|);
      ok := WriteObjects(k.objects);
    }

    method ReadStrings(n: nat) returns (ok: bool, ss: seq<Bytes>)
      requires pos <= |data|
      modifies this`pos
      ensures match GetStrings(data, old(pos), n) case Fail => !ok case Done(v, p) => ok && ss == v && pos == p
    {
      hide GetString;
      ss := [];
      PrependNone(GetStrings(data, pos, n));
      for i := 0 to n
        invariant pos <= |data| && |ss| == i
        invariant GetStrings(data, old(pos), n) == Prepend(ss, GetStrings(data, pos, n - i))
      {
        var s;
        ok, s := ReadString();
        if !ok { return; }
        PrependOne(ss, s, GetStrings(data, pos, n - i - 1));
        ss := ss + [s];
      }
      ok := true;
    }

    method ReadObjects(n: nat) returns (ok: bool, os: seq<KTestObject>)
      requires pos <= |data|
      modifies this`pos
      ensures match GetObjects(data, old(pos), n) case Fail => !ok case Done(v, p) => ok && os == v && pos == p
    {
      hide GetString;
      os := [];
      PrependNone(GetObjects(data, pos, n));
      for i := 0 to n
        invariant pos <= |data| && |os| == i
        invariant GetObjects(data, old(pos), n) == Prepend(os, GetObjects(data, pos, n - i))
      {
        var name, bytes;
        ok, name := ReadString();
        if !ok { return; }
        ok, bytes := ReadObjectBytes();
        if !ok { return; }
        PrependOne(os, KTestObject(name, bytes), GetObjects(data, pos, n - i - 1));
        os := os + [KTestObject(name, bytes)];
      }
      ok := true;
    }

    /** The bytes of an object: a count and that many bytes. */
    method ReadObjectBytes() returns (ok: bool, bytes: Bytes)
      modifies this`pos
      ensures match GetString(data, old(pos)) case Fail => !ok case Done(v, p) => ok && bytes == v && pos == p
    {
      var n;
      bytes := [];
      ok, n := ReadWord();
      if ok {
        ok, bytes := Read(n);
      }
    }

    /** kTest_fromFile */
    method FromFile() returns (ok: bool, k: KTest)
      requires pos == 0
      modifies this`pos
      ensures match Decode(data) case Fail => !ok case Done(v, p) => ok && k == v && pos == p
    {
      hide GetWord, GetBytes, GetStrings, GetObjects;
      k := KTest(0, [], 0, 0, []);
      var magic, version, numArgs, numObjects, symArgvs: Word, symArgvLen: Word := [], 0, 0, 0, 0, 0;
      ok, magic := Read(|MAGIC|);
      if !ok { return; }
      if magic != MAGIC && magic != OLD_MAGIC { return false, k; }
      ok, version := ReadWord();
      if !ok { return; }
      if version > VERSION { return false, k; }
      ok, numArgs := ReadWord();
      if !ok { return; }
      var args, objects;
      ok, args := ReadStrings(numArgs);
      if !ok { return; }
      if version >= 2 {
        ok, symArgvs := ReadWord();
        if !ok { return; }
        ok, symArgvLen := ReadWord();
        if !ok { return; }
      }
      ok, numObjects := ReadWord();
      if !ok { return; }
      ok, objects := ReadObjects(numObjects);
      if !ok { return; }
      k := KTest(version, args, symArgvs, symArgvLen, objects);
    }
  }
}
