/** Checkpoint file names and the directory listing that puts them in order. */
module CheckpointNames {
  import opened Decimals
  import opened Pcm

  // ----- Names -----

  function Zeros(n: nat): string {
    if n == 0 then "" else "0" + Zeros(n - 1)
  }

  /** Zero-padded to three digits. */
  function Padded(n: nat): string {
    Zeros(if |Decimal(n)| < 3 then 3 - |Decimal(n)| else 0) + Decimal(n)
  }

  const STEM := "audio_chunk_"
  const EXTENSION := ".f32"

  function Name(index: nat): string {
    STEM + Padded(index) + EXTENSION
  }

  predicate IsCheckpoint(name: string) {
    |name| >= |STEM| + |EXTENSION| && name[..|STEM|] == STEM && name[|name| - |EXTENSION|..] == EXTENSION
  }

  lemma NameIsCheckpoint(index: nat)
    ensures IsCheckpoint(Name(index))
  {
    var name := Name(index);
    assert name[..|STEM|] == STEM;
    assert name[|name| - |EXTENSION|..] == EXTENSION;
  }

  /** What the listing takes: the stem, anything, the extension. */
  lemma IsCheckpointIff(name: string)
    ensures IsCheckpoint(name) <==> exists middle: string :: name == "audio_chunk_" + middle + ".f32"
  {
    if IsCheckpoint(name) {
      assert name == "audio_chunk_" + name[12..|name| - 4] + ".f32";
    }
    if middle: string :| name == "audio_chunk_" + middle + ".f32" {
      assert name[..12] == "audio_chunk_" && name[|name| - 4..] == ".f32";
    }
  }

  function PartName(index: nat): string {
    Name(index) + ".part"
  }

  lemma PartIsNoCheckpoint(index: nat)
    ensures !IsCheckpoint(PartName(index))
  {
    var part := PartName(index);
    assert part[|part| - 4..] == "part";
  }

  // ----- Distinct indices have distinct names -----

  lemma {:induction false} ZerosValue(k: nat, s: string)
    requires forall i :: 0 <= i < |s| ==> '0' <= s[i] <= '9'
    ensures forall i :: 0 <= i < |Zeros(k) + s| ==> '0' <= (Zeros(k) + s)[i] <= '9'
    ensures Value(Zeros(k) + s) == Value(s)
    decreases k, |s|
  {
    var t := Zeros(k) + s;
    if k == 0 {
      assert t == s;
    } else if s == "" {
      ZerosValue(k - 1, "0");
      ZerosShift(k - 1);
      assert t == Zeros(k - 1) + "0" + "";
      assert t == Zeros(k - 1) + "0";
      assert "0"[..0] == "";
    } else {
      ZerosValue(k, s[..|s| - 1]);
      assert t[..|t| - 1] == Zeros(k) + s[..|s| - 1];
      assert forall i :: 0 <= i < |t| - 1 ==> t[i] == (Zeros(k) + s[..|s| - 1])[i];
    }
  }

  lemma {:induction false} ZerosShift(k: nat)
    ensures Zeros(k) + "0" == "0" + Zeros(k)
  {
    if k > 0 {
      ZerosShift(k - 1);
      assert Zeros(k) + "0" == "0" + (Zeros(k - 1) + "0");
    } else {
      assert "" + "0" == "0" + "";
    }
  }

  /** No checkpoint ever overwrites an earlier one. */
  lemma NamesDistinct(i: nat, j: nat)
    ensures Name(i) == Name(j) ==> i == j
  {
    DecimalValue(i);
    DecimalValue(j);
    ZerosValue(if |Decimal(i)| < 3 then 3 - |Decimal(i)| else 0, Decimal(i));
    ZerosValue(if |Decimal(j)| < 3 then 3 - |Decimal(j)| else 0, Decimal(j));
    if Name(i) == Name(j) {
      var name := Name(i);
      assert name[|STEM|..|name| - |EXTENSION|] == Padded(i);
      assert Name(j)[|STEM|..|name| - |EXTENSION|] == Padded(j);
    }
  }

  // ----- Lexical order -----

  predicate Before(a: string, b: string) {
    b != "" && (a == "" || a[0] < b[0] || (a[0] == b[0] && Before(a[1..], b[1..])))
  }

  lemma {:induction false} BeforeTransitive(a: string, b: string, c: string)
    requires Before(a, b) && Before(b, c)
    ensures Before(a, c)
    decreases |a|
  {
    if a != "" && a[0] == b[0] && b[0] == c[0] {
      BeforeTransitive(a[1..], b[1..], c[1..]);
    }
  }

  lemma {:induction false} BeforeTotal(a: string, b: string)
    ensures Before(a, b) || a == b || Before(b, a)
    ensures !(Before(a, b) && Before(b, a)) && !Before(a, a)
    decreases |a|
  {
    if a != "" {
      BeforeTotal(a[1..], a[1..]);
      if b != "" {
        BeforeTotal(a[1..], b[1..]);
        if a[0] == b[0] && a[1..] == b[1..] {
          assert a == [a[0]] + a[1..];
          assert b == [b[0]] + b[1..];
        }
      }
    }
  }

  lemma {:induction false} BeforeAfterPrefix(p: string, a: string, b: string)
    ensures Before(p + a, p + b) == Before(a, b)
    decreases |p|
  {
    if p == "" {
      assert p + a == a;
      assert p + b == b;
    } else {
      assert (p + a)[1..] == p[1..] + a;
      assert (p + b)[1..] == p[1..] + b;
      BeforeAfterPrefix(p[1..], a, b);
    }
  }

  lemma ThreeDigits(n: nat)
    requires n < 1000
    ensures Padded(n) == [Digit(n / 100), Digit(n / 10 % 10), Digit(n % 10)]
  {
    if n < 10 {
      assert Zeros(2) == "00" by { assert Zeros(1) == "0"; }
    } else if n < 100 {
      assert Decimal(n) == [Digit(n / 10), Digit(n % 10)];
      assert Zeros(1) == "0";
    } else {
      assert Decimal(n / 10) == [Digit(n / 100), Digit(n / 10 % 10)];
    }
  }

  lemma DigitsInOrder(i: nat, j: nat)
    requires i < j < 1000
    ensures i / 100 < j / 100 ||
            (i / 100 == j / 100 && (i / 10 % 10 < j / 10 % 10 || (i / 10 % 10 == j / 10 % 10 && i % 10 < j % 10)))
  {
  }

  lemma TripleBefore(a: string, b: string, tail: string)
    requires |a| == |b| == 3
    requires a[0] < b[0] || (a[0] == b[0] && (a[1] < b[1] || (a[1] == b[1] && a[2] < b[2])))
    ensures Before(a + tail, b + tail)
  {
    var (s, t) := (a + tail, b + tail);
    assert s[1..][0] == a[1] && s[1..][1..][0] == a[2];
    assert t[1..][0] == b[1] && t[1..][1..][0] == b[2];
  }

  lemma NamesInOrder(i: nat, j: nat)
    requires i < j < 1000
    ensures Before(Name(i), Name(j))
  {
    ThreeDigits(i);
    ThreeDigits(j);
    DigitsInOrder(i, j);
    hide Before, Padded, Decimal;
    var (a, b) := (Padded(i), Padded(j));
    TripleBefore(a, b, EXTENSION);
    BeforeAfterPrefix(STEM, a + EXTENSION, b + EXTENSION);
    assert Name(i) == STEM + (a + EXTENSION) && Name(j) == STEM + (b + EXTENSION);
  }

  /** The padding runs out: the 1001st checkpoint sorts before the 102nd. */
  lemma PaddingRunsOut()
    ensures Before(Name(1000), Name(101))
  {
    ThreeDigits(101);
    assert Decimal(1000) == "1000" by {
      assert Decimal(10) == "10" && Decimal(100) == "100";
    }
    assert Padded(1000) == "1000";
    var (a, b) := ("1000" + EXTENSION, "101" + EXTENSION);
    assert Before(a, b) by {
      assert a[1..][1..][0] == '0' && b[1..][1..][0] == '1';
    }
    BeforeAfterPrefix(STEM, a, b);
    assert Name(1000) == STEM + a && Name(101) == STEM + b;
  }

  /** The names as they are on disk. */
  lemma NamesOnDisk(n: nat)
    requires n < 1000
    ensures Name(n)
         == "audio_chunk_" + ["0123456789"[n / 100], "0123456789"[n / 10 % 10], "0123456789"[n % 10]] + ".f32"
    ensures PartName(n) == Name(n) + ".part"
    ensures Name(1000) == "audio_chunk_1000.f32"
  {
    ThreeDigits(n);
    assert forall d :: 0 <= d < 10 ==> Digit(d) == "0123456789"[d];
    assert Decimal(1000) == "1000" by {
      assert Decimal(10) == "10" && Decimal(100) == "100";
    }
  }

  predicate Sorted(names: seq<string>) {
    forall i, j :: 0 <= i < j < |names| ==> Before(names[i], names[j])
  }

  function Names(count: nat): (names: seq<string>)
    ensures |names| == count && forall i :: 0 <= i < count ==> names[i] == Name(i)
  {
    seq(count, i requires 0 <= i => Name(i))
  }

  /** Lexical order is chunk order exactly as long as three digits suffice. */
  lemma LexicalIsChunkOrderIff(count: nat)
    ensures Sorted(Names(count)) <==> count <= 1000
  {
    if count <= 1000 {
      forall i, j | 0 <= i < j < count
        ensures Before(Names(count)[i], Names(count)[j])
      {
        NamesInOrder(i, j);
      }
    } else {
      PaddingRunsOut();
      BeforeTotal(Name(101), Name(1000));
      assert Names(count)[101] == Name(101) && Names(count)[1000] == Name(1000);
    }
  }

  // ----- The listing -----

  type Directory = map<string, seq<Byte>>

  /** The checkpoint files of a directory, in lexical order. */
  ghost predicate IsListing(files: seq<string>, dir: Directory) {
    Sorted(files) && forall f :: f in files <==> f in dir && IsCheckpoint(f)
  }

  method ListCheckpointFiles(dir: Directory) returns (files: seq<string>)
    ensures IsListing(files, dir)
  {
    files := [];
    var rest := dir.Keys;
    while rest != {}
      invariant rest <= dir.Keys && Sorted(files)
      invariant forall f :: f in files <==> f in dir && f !in rest && IsCheckpoint(f)
      decreases |rest|
    {
      var name :| name in rest;
      rest := rest - {name};
      if IsCheckpoint(name) {
        files := Insert(files, name);
      }
    }
  }

  method Insert(files: seq<string>, name: string) returns (r: seq<string>)
    requires Sorted(files) && name !in files
    ensures Sorted(r) && forall f :: f in r <==> f == name || f in files
  {
    var k := 0;
    while k < |files| && Before(files[k], name)
      invariant k <= |files|
      invariant forall i :: 0 <= i < k ==> Before(files[i], name)
    {
      k := k + 1;
    }
    r := files[..k] + [name] + files[k..];
    if k < |files| {
      BeforeTotal(files[k], name);
      forall i | k <= i < |files|
        ensures Before(name, files[i])
      {
        if i > k { BeforeTransitive(name, files[k], files[i]); }
      }
    }
    forall f
      ensures f in r <==> f == name || f in files
    {
      assert files == files[..k] + files[k..];
    }
  }

  /** A directory has one listing only. */
  lemma {:induction false} ListingUnique(a: seq<string>, b: seq<string>)
    requires Sorted(a) && Sorted(b) && forall f :: f in a <==> f in b
    ensures a == b
    decreases |a|
  {
    assert |b| > 0 ==> b[0] in b;
    if a != [] {
      assert a[0] in a;
      FirstIsLeast(a, b[0]);
      FirstIsLeast(b, a[0]);
      BeforeTotal(a[0], b[0]);
      forall f
        ensures f in a[1..] <==> f in b[1..]
      {
        RestOfSorted(a, f);
        RestOfSorted(b, f);
      }
      ListingUnique(a[1..], b[1..]);
      assert a == [a[0]] + a[1..] && b == [b[0]] + b[1..];
    }
  }

  lemma RestOfSorted(a: seq<string>, f: string)
    requires Sorted(a) && a != []
    ensures f in a[1..] <==> f in a && f != a[0]
  {
    BeforeTotal(a[0], a[0]);
    assert a == [a[0]] + a[1..];
  }

  lemma FirstIsLeast(a: seq<string>, f: string)
    requires Sorted(a) && f in a
    ensures f == a[0] || Before(a[0], f)
  {
  }
}
