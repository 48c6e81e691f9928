/** The tree digest of scripts/ga/bind_verified_evidence_content.py: every file contributes its path, size
    and SHA-256 as one record of a text that is then hashed. */
module TreeManifest {
  import opened Collections

  const NUL := 0 as char
  const NEWLINE := 10 as char

  datatype File = File(path: string, size: nat, sha256: string)

  predicate IsDigit(c: char) {
    '0' <= c <= '9'
  }

  /** Paths hold no NUL, though they may hold newlines, and digests no newline. */
  predicate Encodable(f: File) {
    NUL !in f.path && NEWLINE !in f.sha256
  }

  /** Decimal digits, no leading zero. */
  function Decimal(n: nat): (s: string)
    ensures s != "" && forall i | 0 <= i < |s| :: IsDigit(s[i])
  {
    var digit := (n % 10 + '0' as int) as char;
    if n < 10 then [digit] else Decimal(n / 10) + [digit]
  }

  function Value(s: string): nat
    requires forall i | 0 <= i < |s| :: IsDigit(s[i])
  {
    if s == "" then 0 else assert IsDigit(s[|s| - 1]); Value(s[..|s| - 1]) * 10 + (s[|s| - 1] as int - '0' as int)
  }

  lemma {:induction false} DecimalRoundTrip(n: nat)
    ensures Value(Decimal(n)) == n
  {
    var s := Decimal(n);
    if n < 10 {
      assert s[..0] == "";
    } else {
      DecimalRoundTrip(n / 10);
      assert s[..|s| - 1] == Decimal(n / 10);
    }
  }

  function Encode(f: File): string {
    f.path + [NUL] + Decimal(f.size) + [NUL] + f.sha256 + [NEWLINE]
  }

  function EncodeAll(files: seq<File>): string {
    if files == [] then "" else Encode(files[0]) + EncodeAll(files[1..])
  }

  /** The text of a record: path, size in decimal, digest, separated by NUL and ended by a newline. */
  lemma ManifestText(path: string, sha256: string)
    ensures EncodeAll([File(path, 1024, sha256)]) == path + [0 as char] + "1024" + [0 as char] + sha256 + [10 as char]
  {
    var f := File(path, 1024, sha256);
    assert Decimal(1024) == "1024" by {
      assert Decimal(1) == "1" && Decimal(10) == "10" && Decimal(102) == "102";
    }
    assert [f][1..] == [] && EncodeAll([f]) == Encode(f) + "";
  }

  /** The text before the first `c`, and the text after it. */
  function Cut(text: string, c: char): (r: Option<(string, string)>)
    ensures r.Some? ==> text == r.value.0 + [c] + r.value.1 && c !in r.value.0 && |r.value.1| < |text|
  {
    if text == "" then None
    else if text[0] == c then Some(("", text[1..]))
    else match Cut(text[1..], c)
      case None => None
      case Some((front, rest)) => Some(([text[0]] + front, rest))
  }

  lemma {:induction false} CutAtFirst(front: string, c: char, rest: string)
    requires c !in front
    ensures Cut(front + [c] + rest, c) == Some((front, rest))
  {
    var text := front + [c] + rest;
    if front == "" {
      assert text[1..] == rest;
    } else {
      assert text[1..] == front[1..] + [c] + rest;
      CutAtFirst(front[1..], c, rest);
      assert front == [front[0]] + front[1..];
    }
  }

  function Parse(text: string): Option<seq<File>>
    decreases |text|
  {
    if text == "" then Some([])
    else match Cut(text, NUL)
      case None => None
      case Some((path, rest1)) => match Cut(rest1, NUL)
        case None => None
        case Some((size, rest2)) => match Cut(rest2, NEWLINE)
          case None => None
          case Some((sha, rest3)) =>
            if exists i | 0 <= i < |size| :: !IsDigit(size[i]) then None
            else match Parse(rest3)
              case None => None
              case Some(files) => Some([File(path, Value(size), sha)] + files)
  }

  /** The manifest text determines the file list: parsing gives back exactly what was encoded. */
  lemma {:induction false} ManifestRoundTrip(files: seq<File>)
    requires forall f | f in files :: Encodable(f)
    ensures Parse(EncodeAll(files)) == Some(files)
  {
    if files != [] {
      ManifestRoundTrip(files[1..]);
      assert Encodable(files[0]);
      ParseOne(files[0], EncodeAll(files[1..]), files[1..]);
      assert files == [files[0]] + files[1..];
    }
  }

  /** Parsing takes off one record and goes on with the rest. */
  lemma ParseOne(f: File, rest: string, files: seq<File>)
    requires Encodable(f) && Parse(rest) == Some(files)
    ensures Parse(Encode(f) + rest) == Some([f] + files)
  {
    hide Cut, Value, Decimal;
    var size := Decimal(f.size);
    var text2 := f.sha256 + [NEWLINE] + rest;
    var text1 := size + [NUL] + text2;
    assert Encode(f) + rest == f.path + [NUL] + text1;
    CutAtFirst(f.path, NUL, text1);
    CutAtFirst(size, NUL, text2);
    CutAtFirst(f.sha256, NEWLINE, rest);
    DecimalRoundTrip(f.size);
  }

  lemma ManifestInjective(a: seq<File>, b: seq<File>)
    requires (forall f | f in a :: Encodable(f)) && (forall f | f in b :: Encodable(f))
    requires EncodeAll(a) == EncodeAll(b)
    ensures a == b
  {
    ManifestRoundTrip(a);
    ManifestRoundTrip(b);
  }

  datatype TreeState = TreeState(files: seq<File>, digest: string)

  lemma {:induction false} EncodeAllAppend(files: seq<File>, f: File)
    ensures EncodeAll(files + [f]) == EncodeAll(files) + Encode(f)
  {
    if files == [] {
      assert [f][1..] == [];
    } else {
      assert (files + [f])[1..] == files[1..] + [f];
      EncodeAllAppend(files[1..], f);
    }
  }

  /** The digest loop of `tree_state`, over the sorted files of a tree; `hash` is SHA-256. */
  method DigestTree(hash: string -> string, files: seq<File>) returns (r: Result<TreeState>)
    ensures r.Ok? <==> files != []
    ensures r.Ok? ==> r.value == TreeState(files, hash(EncodeAll(files)))
  {
    if files == [] { return Raised; }
    var fed := "";
    for i := 0 to |files|
      invariant fed == EncodeAll(files[..i])
    {
      EncodeAllAppend(files[..i], files[i]);
      assert files[..i + 1] == files[..i] + [files[i]];
      fed := fed + Encode(files[i]);
    }
    assert files[..|files|] == files;
    return Ok(TreeState(files, hash(fed)));
  }

  /** If the hash does not collide on these two texts, equal tree digests mean equal file lists. */
  lemma EqualDigestsMeanEqualTrees(hash: string -> string, a: seq<File>, b: seq<File>)
    requires (forall f | f in a :: Encodable(f)) && (forall f | f in b :: Encodable(f))
    requires hash(EncodeAll(a)) == hash(EncodeAll(b)) ==> EncodeAll(a) == EncodeAll(b)
    ensures hash(EncodeAll(a)) == hash(EncodeAll(b)) <==> a == b
  {
    if EncodeAll(a) == EncodeAll(b) { ManifestInjective(a, b); }
  }
}
