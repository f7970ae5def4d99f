/** Splitting a bootloader image into its partition images and writing them to an update
    package. Byte strings are strings, as in Python 2.
 */
module Bootloader {
  import opened Common

  type Byte = c: char | c < 256 as char witness 'a'
  type Bytes = seq<Byte>

  datatype Result<+T> = Ok(value: T) | Err(error: Error)

  /** What makes the script stop: struct.error, a failed assert, or an uncaught KeyError. */
  datatype Error = ShortHeader | BadMagic | ShortInfo | Corrupted | NoMiscPartition | NoSuchImage(name: string)

  const BOOTLDR_MAGIC: Bytes := ['B', 'O', 'O', 'T', 'L', 'D', 'R', '!']

  // The header takes struct.calcsize("<8sIII") == 20 bytes, a table entry struct.calcsize("<64sI") == 68.
  function EntryStart(i: nat): nat { 20 + 68 * i }

  // ---------- Python's slices and struct's integers ----------

  // s[lo:hi] clamps both bounds
  function Slice<T>(s: seq<T>, lo: nat, hi: nat): (r: seq<T>)
    ensures lo <= hi <= |s| ==> |r| == hi - lo
  {
    var h := if hi < |s| then hi else |s|;
    if lo < h then s[lo..h] else []
  }

  lemma SlicesJoin<T>(s: seq<T>, a: nat, b: nat, c: nat)
    requires a <= b <= c
    ensures Slice(s, a, b) + Slice(s, b, c) == Slice(s, a, c)
  {
  }

  lemma SliceEmpty<T>(s: seq<T>, a: nat)
    ensures Slice(s, a, a) == []
  {
  }

  function ReadU32(s: Bytes): (n: nat)
    requires |s| == 4
  {
    s[0] as int + 0x100 * s[1] as int + 0x1_0000 * s[2] as int + 0x100_0000 * s[3] as int
  }

  function WriteU32(n: nat): (s: Bytes)
    requires n < 0x1_0000_0000
    ensures |s| == 4
  {
    [(n % 0x100) as char, (n / 0x100 % 0x100) as char, (n / 0x1_0000 % 0x100) as char, (n / 0x100_0000) as char]
  }

  lemma U32RoundTrip(n: nat)
    requires n < 0x1_0000_0000
    ensures ReadU32(WriteU32(n)) == n
  {
    var hi := n / 0x100;
    assert n == 0x100 * hi + n % 0x100;
    assert hi == 0x100 * (hi / 0x100) + hi % 0x100;
    assert n / 0x1_0000 == hi / 0x100 && n / 0x100_0000 == hi / 0x1_0000;
  }

  function TruncToNull(s: Bytes): (r: Bytes)
    ensures '\0' !in r && r <= s && (|r| < |s| ==> s[|r|] == '\0')
  {
    if s == [] || s[0] == '\0' then [] else [s[0]] + TruncToNull(s[1..])
  }

  // ---------- the image table ----------

  datatype Info = Info(name: Bytes, size: nat)

  /** An entry of img_dict: where an image starts and its size. */
  datatype Place = Place(at: nat, size: nat)

  datatype Header = Header(numImages: nat, startOffset: nat, size: nat, magicOk: bool)

  function ReadHeader(b: Bytes): Option<Header> {
    var h := Slice(b, 0, 20);
    if |h| != 20 then None
    else Some(Header(ReadU32(h[8..12]), ReadU32(h[12..16]), ReadU32(h[16..20]), h[..8] == BOOTLDR_MAGIC))
  }

  /** The first n entries of the table, if the file is long enough. */
  function ReadInfos(b: Bytes, n: nat): (r: Option<seq<Info>>)
    ensures r.Some? ==> |r.value| == n
  {
    if n == 0 then Some([])
    else
      var entry := Slice(b, EntryStart(n - 1), EntryStart(n));
      var before := ReadInfos(b, n - 1);
      if before.None? || |entry| != 68 then None
      else Some(before.value + [Info(entry[..64], ReadU32(entry[64..]))])
  }

  function SizeSum(infos: seq<Info>): nat {
    if infos == [] then 0 else SizeSum(infos[..|infos| - 1]) + infos[|infos| - 1].size
  }

  /** Where the k-th image starts. */
  function Offset(start: nat, infos: seq<Info>, k: nat): nat
    requires k <= |infos|
  {
    start + SizeSum(infos[..k])
  }

  /** img_dict: for each truncated name, the place of the last image so named. */
  function Places(start: nat, infos: seq<Info>): map<string, Place> {
    if infos == [] then map[]
    else
      var k := |infos| - 1;
      Places(start, infos[..k])[TruncToNull(infos[k].name) := Place(start + SizeSum(infos[..k]), infos[k].size)]
  }

  function Parse(b: Bytes): Result<map<string, Place>> {
    var h := ReadHeader(b);
    if h.None? then Err(ShortHeader)
    else if !h.value.magicOk then Err(BadMagic)
    else
      var infos := ReadInfos(b, h.value.numImages);
      if infos.None? then Err(ShortInfo)
      else if SizeSum(infos.value) != h.value.size then Err(Corrupted)
      else Ok(Places(h.value.startOffset, infos.value))
  }

  /** The reading half of WriteBootloader. */
  method ReadBootloader(b: Bytes) returns (r: Result<map<string, Place>>)
    ensures r == Parse(b)
  {
    var header := Slice(b, 0, 20);
    if |header| != 20 { return Err(ShortHeader); }
    var numImages, startOffset, size := ReadU32(header[8..12]), ReadU32(header[12..16]), ReadU32(header[16..20]);
    if header[..8] != BOOTLDR_MAGIC { return Err(BadMagic); }
    hide ReadU32, Slice, ReadInfos, Places;
    var imgs := ReadTable(b, numImages);
    if imgs.None? { return Err(ShortInfo); }
    var p, imgDict := PlaceImages(startOffset, imgs.value);
    if p - startOffset != size { return Err(Corrupted); }
    return Ok(imgDict);
  }

  method ReadTable(b: Bytes, numImages: nat) returns (r: Option<seq<Info>>)
    ensures r == ReadInfos(b, numImages)
  {
    hide ReadU32, Slice, EntryStart;
    var imgs: seq<Info> := [];
    var i := 0;
    while i < numImages
      invariant 0 <= i <= numImages && ReadInfos(b, i) == Some(imgs)
    {
      var entry := Slice(b, EntryStart(i), EntryStart(i + 1));
      if |entry| != 68 {
        NotEnough(b, i + 1, numImages);
        return None;
      }
      imgs := imgs + [Info(entry[..64], ReadU32(entry[64..]))];
      i := i + 1;
    }
    return Some(imgs);
  }

  /** The running position p and img_dict. */
  method PlaceImages(startOffset: nat, imgs: seq<Info>) returns (p: nat, imgDict: map<string, Place>)
    ensures p == startOffset + SizeSum(imgs) && imgDict == Places(startOffset, imgs)
  {
    hide TruncToNull;
    p, imgDict := startOffset, map[];
    var i := 0;
    while i < |imgs|
      invariant 0 <= i <= |imgs|
      invariant imgDict == Places(startOffset, imgs[..i]) && p == startOffset + SizeSum(imgs[..i])
    {
      assert imgs[..i + 1][..i] == imgs[..i];
      imgDict := imgDict[TruncToNull(imgs[i].name) := Place(p, imgs[i].size)];
      p := p + imgs[i].size;
      i := i + 1;
    }
    assert imgs[..i] == imgs;
  }

  lemma {:induction false} NotEnough(b: Bytes, m: nat, n: nat)
    requires m <= n && ReadInfos(b, m).None?
    ensures ReadInfos(b, n).None?
  {
    hide Slice, ReadU32, EntryStart;
    if m < n {
      NotEnough(b, m, n - 1);
    }
  }

  function ImageAt(b: Bytes, place: Place): Bytes {
    Slice(b, place.at, place.at + place.size)
  }

  // ---------- which files are taken ----------

  /** The k-th entry of the table of a file that is long enough: a name of 64 bytes and a size. */
  function NameAt(b: Bytes, at: nat): Bytes
    requires at + 68 <= |b|
  {
    b[at..at + 64]
  }

  function SizeAt(b: Bytes, at: nat): nat
    requires at + 68 <= |b|
  {
    ReadU32(b[at + 64..at + 68])
  }

  lemma {:induction false} ReadInfosIff(b: Bytes, n: nat)
    requires |b| >= 20
    ensures ReadInfos(b, n).Some? <==> |b| >= 20 + 68 * n
    ensures |b| >= 20 + 68 * n ==> SizeSum(ReadInfos(b, n).value) == SizesIn(b, n)
  {
    if n > 0 {
      ReadInfosIff(b, n - 1);
      if |b| >= 20 + 68 * n {
        LastInfo(b, n);
        hide ReadInfos, SizeSum, SizeAt, NameAt;
        SizeSumLast(ReadInfos(b, n - 1).value, Info(NameAt(b, 20 + 68 * (n - 1)), SizeAt(b, 20 + 68 * (n - 1))));
      } else {
        ShortEntry(b, n);
      }
    }
  }

  lemma SizeSumLast(infos: seq<Info>, last: Info)
    ensures SizeSum(infos + [last]) == SizeSum(infos) + last.size
  {
    assert (infos + [last])[..|infos|] == infos;
  }

  lemma ShortEntry(b: Bytes, n: nat)
    requires n > 0 && |b| < 20 + 68 * n
    ensures ReadInfos(b, n).None?
  {
    hide ReadU32;
  }

  lemma LastInfo(b: Bytes, n: nat)
    requires n > 0 && |b| >= 20 + 68 * n && ReadInfos(b, n - 1).Some?
    ensures ReadInfos(b, n) ==
            Some(ReadInfos(b, n - 1).value + [Info(NameAt(b, 20 + 68 * (n - 1)), SizeAt(b, 20 + 68 * (n - 1)))])
  {
    hide ReadU32;
    var at := 20 + 68 * (n - 1);
    assert Slice(b, EntryStart(n - 1), EntryStart(n)) == b[at..at + 68];
    assert b[at..at + 68][..64] == b[at..at + 64] && b[at..at + 68][64..] == b[at + 64..at + 68];
  }

  /** The sizes in the table, summed up. */
  function SizesIn(b: Bytes, n: nat): nat
    requires |b| >= 20 + 68 * n
  {
    if n == 0 then 0 else SizesIn(b, n - 1) + SizeAt(b, 20 + 68 * (n - 1))
  }

  lemma {:induction false} InfoAt(b: Bytes, n: nat, k: nat)
    requires k < n && |b| >= 20 + 68 * n
    ensures ReadInfos(b, n).Some?
    ensures ReadInfos(b, n).value[k] == Info(NameAt(b, 20 + 68 * k), SizeAt(b, 20 + 68 * k))
  {
    hide ReadU32, NameAt, SizeAt, ReadInfos, SizeSum, SizesIn;
    ReadInfosIff(b, n);
    ReadInfosIff(b, n - 1);
    LastInfo(b, n);
    if k < n - 1 {
      InfoAt(b, n - 1, k);
    }
  }

  lemma HeaderIs(b: Bytes)
    requires |b| >= 20
    ensures ReadHeader(b) ==
            Some(Header(ReadU32(b[8..12]), ReadU32(b[12..16]), ReadU32(b[16..20]), b[..8] == BOOTLDR_MAGIC))
  {
    hide ReadU32;
    assert Slice(b, 0, 20) == b[..20];
    assert b[..20][8..12] == b[8..12] && b[..20][12..16] == b[12..16] && b[..20][16..20] == b[16..20];
    assert b[..20][..8] == b[..8];
  }

  /** The error of a file with a header, if it has one. */
  function Fault(b: Bytes, n: nat, size: nat): Option<Error>
    requires |b| >= 20
  {
    if b[..8] != BOOTLDR_MAGIC then Some(BadMagic)
    else if |b| < 20 + 68 * n then Some(ShortInfo)
    else if SizesIn(b, n) != size then Some(Corrupted)
    else None
  }

  /** A file is taken exactly if it has a header, the magic, as many entries as the header says, and
      sizes that add up to what the header says; otherwise the first of these that it lacks is the error.
   */
  lemma ParseIff(b: Bytes, n: nat)
    requires |b| >= 20 && n == ReadU32(b[8..12])
    ensures Parse(b).Ok? <==> Fault(b, n, ReadU32(b[16..20])) == None
    ensures Parse(b).Err? ==> Fault(b, n, ReadU32(b[16..20])) == Some(Parse(b).error)
    ensures Parse(b).Ok? ==>
              ReadInfos(b, n).Some? && Parse(b).value == Places(ReadU32(b[12..16]), ReadInfos(b, n).value)
  {
    HeaderIs(b);
    ReadInfosIff(b, n);
    hide ReadU32, Places, ReadInfos, SizesIn, ReadHeader, SizeSum;
  }

  lemma ShortFile(b: Bytes)
    requires |b| < 20
    ensures Parse(b) == Err(ShortHeader)
  {
    hide ReadU32, ReadInfos, Places;
  }

  lemma MagicIs()
    ensures BOOTLDR_MAGIC == "BOOTLDR!"
  {
  }

  // ---------- the images tile the region ----------

  function ImagesConcatenated(b: Bytes, start: nat, infos: seq<Info>): Bytes {
    if infos == [] then []
    else
      var k := |infos| - 1;
      ImagesConcatenated(b, start, infos[..k])
      + ImageAt(b, Place(start + SizeSum(infos[..k]), infos[k].size))
  }

  /** The images lie one behind the other, and together are exactly the bootloader region. */
  lemma {:induction false} ImagesTileRegion(b: Bytes, start: nat, infos: seq<Info>)
    ensures ImagesConcatenated(b, start, infos) == Slice(b, start, start + SizeSum(infos))
  {
    hide Slice;
    if infos == [] {
      SliceEmpty(b, start);
    } else {
      var k := |infos| - 1;
      ImagesTileRegion(b, start, infos[..k]);
      SlicesJoin(b, start, start + SizeSum(infos[..k]), start + SizeSum(infos));
    }
  }

  lemma {:induction false} SizeSumMonotone(infos: seq<Info>, j: nat, k: nat)
    requires j <= k <= |infos|
    ensures SizeSum(infos[..j]) <= SizeSum(infos[..k])
  {
    if j < k {
      SizeSumMonotone(infos, j, k - 1);
      assert infos[..k][..k - 1] == infos[..k - 1];
    }
  }

  /** Different images occupy disjoint places, in the order of the table. */
  lemma ImagesDisjoint(start: nat, infos: seq<Info>, j: nat, k: nat)
    requires j < k < |infos|
    ensures Offset(start, infos, j) + infos[j].size <= Offset(start, infos, k)
  {
    assert infos[..j + 1][..j] == infos[..j];
    SizeSumMonotone(infos, j + 1, k);
  }

  predicate DistinctNames(infos: seq<Info>) {
    forall j, k | 0 <= j < k < |infos| :: TruncToNull(infos[j].name) != TruncToNull(infos[k].name)
  }

  /** With distinct names the table holds every image under its name ... */
  lemma {:induction false} PlaceOf(start: nat, infos: seq<Info>, k: nat)
    requires DistinctNames(infos) && k < |infos|
    ensures var name := TruncToNull(infos[k].name);
            name in Places(start, infos) && Places(start, infos)[name] == Place(Offset(start, infos, k), infos[k].size)
  {
    hide TruncToNull, SizeSum;
    var n := |infos| - 1;
    if k < n {
      assert infos[..n][k] == infos[k] && infos[..n][..k] == infos[..k];
      PlaceOf(start, infos[..n], k);
    }
  }

  /** ... and nothing else. */
  lemma {:induction false} PlacesHasOnlyImages(start: nat, infos: seq<Info>, name: string)
    requires name in Places(start, infos)
    ensures exists k | 0 <= k < |infos| :: name == TruncToNull(infos[k].name)
  {
    hide TruncToNull, SizeSum;
    var n := |infos| - 1;
    if name != TruncToNull(infos[n].name) {
      PlacesHasOnlyImages(start, infos[..n], name);
      var k :| 0 <= k < n && name == TruncToNull(infos[..n][k].name);
      assert infos[k] == infos[..n][k];
    }
  }

  // ---------- packing, as the format is documented ----------

  datatype Image = Image(name: Bytes, content: Bytes)

  function Zeros(n: nat): (r: Bytes)
    ensures |r| == n
  {
    if n == 0 then [] else ['\0'] + Zeros(n - 1)
  }

  predicate NameOk(name: Bytes) { |name| <= 64 && '\0' !in name }

  function InfoBytes(i: Image): (r: Bytes)
    requires NameOk(i.name) && |i.content| < 0x1_0000_0000
    ensures |r| == 68
  {
    i.name + Zeros(64 - |i.name|) + WriteU32(|i.content|)
  }

  predicate ImagesOk(images: seq<Image>) {
    forall i | i in images :: NameOk(i.name) && |i.content| < 0x1_0000_0000
  }

  function TableBytes(images: seq<Image>): (r: Bytes)
    requires ImagesOk(images)
    ensures |r| == 68 * |images|
  {
    if images == [] then [] else TableBytes(images[..|images| - 1]) + InfoBytes(images[|images| - 1])
  }

  function Contents(images: seq<Image>): Bytes {
    if images == [] then [] else Contents(images[..|images| - 1]) + images[|images| - 1].content
  }

  function StartOffset(images: seq<Image>, gap: Bytes): nat {
    EntryStart(|images|) + |gap|
  }

  /** Header, table, a gap up to start_offset, and the images one behind the other. */
  function Pack(images: seq<Image>, gap: Bytes): Bytes
    requires Packable(images, gap)
  {
    BOOTLDR_MAGIC + WriteU32(|images|) + WriteU32(StartOffset(images, gap))
    + WriteU32(|Contents(images)|) + (TableBytes(images) + gap + Contents(images))
  }

  predicate Packable(images: seq<Image>, gap: Bytes) {
    && ImagesOk(images)
    && StartOffset(images, gap) < 0x1_0000_0000
    && |Contents(images)| < 0x1_0000_0000
    && DifferentNames(images)
  }

  predicate DifferentNames(images: seq<Image>) {
    forall j, k | 0 <= j < k < |images| :: images[j].name != images[k].name
  }

  // ---------- unpacking what was packed ----------

  /** The table entry an image is read back as: its name padded to 64 bytes. */
  function InfoOf(i: Image): Info
    requires NameOk(i.name)
  {
    Info(i.name + Zeros(64 - |i.name|), |i.content|)
  }

  function InfosOf(images: seq<Image>): (r: seq<Info>)
    requires ImagesOk(images)
    ensures |r| == |images|
  {
    if images == [] then [] else InfosOf(images[..|images| - 1]) + [InfoOf(images[|images| - 1])]
  }

  lemma {:induction false} InfosOfAt(images: seq<Image>, k: nat)
    requires ImagesOk(images) && k < |images|
    ensures InfosOf(images)[k] == InfoOf(images[k]) && InfosOf(images)[..k] == InfosOf(images[..k])
  {
    var n := |images| - 1;
    if k < n {
      InfosOfAt(images[..n], k);
      assert images[..n][..k] == images[..k];
    }
  }

  lemma {:induction false} TruncPadded(name: Bytes, n: nat)
    requires '\0' !in name
    ensures TruncToNull(name + Zeros(n)) == name
  {
    if name == [] {
      assert name + Zeros(n) == Zeros(n);
    } else {
      assert (name + Zeros(n))[1..] == name[1..] + Zeros(n);
      TruncPadded(name[1..], n);
    }
  }

  lemma {:induction false} TableEntry(images: seq<Image>, k: nat, at: nat)
    requires ImagesOk(images) && k < |images| && at == 68 * k
    ensures |TableBytes(images)| >= at + 68 && Slice(TableBytes(images), at, at + 68) == InfoBytes(images[k])
  {
    hide InfoBytes;
    var n := |images| - 1;
    if k < n {
      TableEntry(images[..n], k, at);
    } else {
      assert |TableBytes(images[..n])| == at;
    }
  }

  /** A slice behind a prefix is a slice of the rest. */
  lemma SliceBehind<T>(prefix: seq<T>, s: seq<T>, rest: seq<T>, lo: nat, hi: nat)
    requires lo <= hi <= |s|
    ensures Slice(prefix + (s + rest), |prefix| + lo, |prefix| + hi) == Slice(s, lo, hi)
  {
  }

  lemma {:induction false} ReadInfosOfTable(b: Bytes, header: Bytes, images: seq<Image>, rest: Bytes, n: nat)
    requires |header| == 20 && ImagesOk(images) && b == header + (TableBytes(images) + rest)
    requires n <= |images|
    ensures ReadInfos(b, n) == Some(InfosOf(images[..n]))
  {
    if n > 0 {
      ReadInfosOfTable(b, header, images, rest, n - 1);
      EntryInFile(b, header, images, rest, n);
      hide *;
      ReadOneInfo(b, images, n);
    }
  }

  lemma EntryInFile(b: Bytes, header: Bytes, images: seq<Image>, rest: Bytes, n: nat)
    requires |header| == 20 && ImagesOk(images) && b == header + (TableBytes(images) + rest)
    requires 0 < n <= |images|
    ensures Slice(b, EntryStart(n - 1), EntryStart(n)) == InfoBytes(images[n - 1])
  {
    hide *;
    TableEntry(images, n - 1, 68 * (n - 1));
    EntryBehind(b, header, TableBytes(images), rest, n, 68 * (n - 1));
  }

  lemma EntryBehind(b: Bytes, header: Bytes, table: Bytes, rest: Bytes, n: nat, at: nat)
    requires |header| == 20 && b == header + (table + rest) && 0 < n && at == 68 * (n - 1) && at + 68 <= |table|
    ensures Slice(b, EntryStart(n - 1), EntryStart(n)) == Slice(table, at, at + 68)
  {
    hide Slice;
    SliceBehind(header, table, rest, at, at + 68);
  }

  lemma InfoRoundTrip(i: Image)
    requires NameOk(i.name) && |i.content| < 0x1_0000_0000
    ensures Info(InfoBytes(i)[..64], ReadU32(InfoBytes(i)[64..])) == InfoOf(i)
  {
    U32RoundTrip(|i.content|);
    hide WriteU32, ReadU32;
    assert InfoBytes(i)[..64] == i.name + Zeros(64 - |i.name|);
    assert InfoBytes(i)[64..] == WriteU32(|i.content|);
  }

  lemma ReadOneInfo(b: Bytes, images: seq<Image>, n: nat)
    requires ImagesOk(images) && 0 < n <= |images|
    requires ReadInfos(b, n - 1) == Some(InfosOf(images[..n - 1]))
    requires Slice(b, EntryStart(n - 1), EntryStart(n)) == InfoBytes(images[n - 1])
    ensures ReadInfos(b, n) == Some(InfosOf(images[..n]))
  {
    InfoRoundTrip(images[n - 1]);
    InfosOfSnoc(images, n);
    hide InfoBytes, ReadU32, InfoOf, Slice, InfosOf, ImagesOk, Zeros;
  }

  lemma InfosOfSnoc(images: seq<Image>, n: nat)
    requires ImagesOk(images) && 0 < n <= |images|
    ensures InfosOf(images[..n]) == InfosOf(images[..n - 1]) + [InfoOf(images[n - 1])]
  {
    assert images[..n][..n - 1] == images[..n - 1];
  }

  lemma {:induction false} SizeSumIsLength(images: seq<Image>)
    requires ImagesOk(images)
    ensures SizeSum(InfosOf(images)) == |Contents(images)|
  {
    if images != [] {
      SizeSumIsLength(images[..|images| - 1]);
      assert InfosOf(images)[..|images| - 1] == InfosOf(images[..|images| - 1]);
    }
  }

  lemma {:induction false} ContentBehind(images: seq<Image>, k: nat)
    requires k < |images|
    ensures var at := |Contents(images[..k])|;
            at + |images[k].content| <= |Contents(images)| &&
            Slice(Contents(images), at, at + |images[k].content|) == images[k].content
  {
    var n := |images| - 1;
    if k < n {
      assert images[..n][..k] == images[..k];
      ContentBehind(images[..n], k);
      SlicePrefix(Contents(images[..n]), images[n].content, |Contents(images[..k])|,
                  |Contents(images[..k])| + |images[k].content|);
    }
  }

  lemma SlicePrefix<T>(s: seq<T>, more: seq<T>, lo: nat, hi: nat)
    requires lo <= hi <= |s|
    ensures Slice(s + more, lo, hi) == Slice(s, lo, hi)
  {
  }

  lemma PackedHeader(images: seq<Image>, gap: Bytes)
    requires Packable(images, gap)
    ensures ReadHeader(Pack(images, gap)) ==
            Some(Header(|images|, StartOffset(images, gap), |Contents(images)|, true))
  {
    hide TableBytes, Contents, WriteU32, ReadU32;
    var b := Pack(images, gap);
    var h := b[..20];
    assert h[8..12] == WriteU32(|images|);
    assert h[12..16] == WriteU32(StartOffset(images, gap));
    assert h[16..20] == WriteU32(|Contents(images)|);
    assert h[..8] == BOOTLDR_MAGIC;
    U32RoundTrip(|images|);
    U32RoundTrip(StartOffset(images, gap));
    U32RoundTrip(|Contents(images)|);
  }

  lemma PackedParses(images: seq<Image>, gap: Bytes)
    requires Packable(images, gap)
    ensures Parse(Pack(images, gap)) ==
            Ok(Places(StartOffset(images, gap), InfosOf(images)))
  {
    assert ImagesOk(images);
    hide *;
    PackedHeader(images, gap);
    PackedInfos(images, gap);
    SizeSumIsLength(images);
    ParseGives(Pack(images, gap), Header(|images|, StartOffset(images, gap), |Contents(images)|, true),
               InfosOf(images));
  }

  lemma ParseGives(b: Bytes, h: Header, infos: seq<Info>)
    requires ReadHeader(b) == Some(h) && h.magicOk && ReadInfos(b, h.numImages) == Some(infos)
    requires SizeSum(infos) == h.size
    ensures Parse(b) == Ok(Places(h.startOffset, infos))
  {
  }

  /** Splitting a packed file finds every image that went in, byte for byte, and no other. */
  lemma UnpackPacked(images: seq<Image>, gap: Bytes)
    requires Packable(images, gap)
    ensures var b := Pack(images, gap);
            Parse(b).Ok? &&
            (forall k | 0 <= k < |images| ::
               images[k].name in Parse(b).value &&
               ImageAt(b, Parse(b).value[images[k].name]) == images[k].content) &&
            (forall name | name in Parse(b).value :: exists k | 0 <= k < |images| :: name == images[k].name)
  {
    PackedParses(images, gap);
    hide Parse, Pack, Places, ImageAt;
    forall k | 0 <= k < |images|
      ensures images[k].name in Parse(Pack(images, gap)).value
      ensures ImageAt(Pack(images, gap), Parse(Pack(images, gap)).value[images[k].name]) == images[k].content
    {
      PackedImage(images, gap, k, StartOffset(images, gap));
    }
    forall name | name in Parse(Pack(images, gap)).value
      ensures exists k | 0 <= k < |images| :: name == images[k].name
    {
      OnlyPackedNames(images, StartOffset(images, gap), name);
    }
  }

  lemma OnlyPackedNames(images: seq<Image>, start: nat, name: string)
    requires ImagesOk(images) && name in Places(start, InfosOf(images))
    ensures exists k | 0 <= k < |images| :: name == images[k].name
  {
    hide Places, InfosOf, TruncToNull;
    NamesOfInfos(images);
    PlacesHasOnlyImages(start, InfosOf(images), name);
    var k :| 0 <= k < |InfosOf(images)| && name == TruncToNull(InfosOf(images)[k].name);
    assert name == images[k].name;
  }

  lemma PackedInfos(images: seq<Image>, gap: Bytes)
    requires Packable(images, gap)
    ensures ReadInfos(Pack(images, gap), |images|) == Some(InfosOf(images))
  {
    hide TableBytes, Contents, WriteU32, ReadInfos, InfosOf;
    var header := BOOTLDR_MAGIC + WriteU32(|images|) + WriteU32(StartOffset(images, gap))
                  + WriteU32(|Contents(images)|);
    assert Pack(images, gap) == header + (TableBytes(images) + (gap + Contents(images)));
    ReadInfosOfTable(Pack(images, gap), header, images, gap + Contents(images), |images|);
    assert images[..|images|] == images;
  }

  lemma NamesOfInfos(images: seq<Image>)
    requires ImagesOk(images)
    ensures forall k | 0 <= k < |images| :: TruncToNull(InfosOf(images)[k].name) == images[k].name
  {
    forall k | 0 <= k < |images| ensures TruncToNull(InfosOf(images)[k].name) == images[k].name {
      NameOfInfo(images, k);
    }
  }

  lemma PackedContents(images: seq<Image>, gap: Bytes, lo: nat, hi: nat)
    requires Packable(images, gap) && lo <= hi <= |Contents(images)|
    ensures var start := StartOffset(images, gap);
            Slice(Pack(images, gap), start + lo, start + hi) == Slice(Contents(images), lo, hi)
  {
    hide TableBytes, Contents, WriteU32, Slice;
    var start := StartOffset(images, gap);
    var prefix := BOOTLDR_MAGIC + WriteU32(|images|) + WriteU32(start) + WriteU32(|Contents(images)|)
                  + TableBytes(images) + gap;
    assert Pack(images, gap) == prefix + (Contents(images) + []);
    assert |prefix| == start;
    SliceBehind(prefix, Contents(images), [], lo, hi);
  }

  lemma PackedNamesDistinct(images: seq<Image>, gap: Bytes)
    requires Packable(images, gap)
    ensures DistinctNames(InfosOf(images))
  {
    hide InfosOf, TruncToNull;
    NamesOfInfos(images);
  }

  lemma PackedPlace(images: seq<Image>, start: nat, k: nat)
    requires ImagesOk(images) && DistinctNames(InfosOf(images)) && k < |images|
    ensures images[k].name in Places(start, InfosOf(images))
    ensures Places(start, InfosOf(images))[images[k].name] ==
            Place(start + |Contents(images[..k])|, |images[k].content|)
  {
    hide *;
    OffsetOfPacked(images, start, k);
    NameOfInfo(images, k);
    PlaceNamed(start, InfosOf(images), k, images[k].name);
  }

  lemma NameOfInfo(images: seq<Image>, k: nat)
    requires ImagesOk(images) && k < |images|
    ensures TruncToNull(InfosOf(images)[k].name) == images[k].name
  {
    InfosOfAt(images, k);
    TruncPadded(images[k].name, 64 - |images[k].name|);
  }

  lemma PlaceNamed(start: nat, infos: seq<Info>, k: nat, name: Bytes)
    requires DistinctNames(infos) && k < |infos| && TruncToNull(infos[k].name) == name
    ensures name in Places(start, infos)
    ensures Places(start, infos)[name] == Place(Offset(start, infos, k), infos[k].size)
  {
    hide *;
    PlaceOf(start, infos, k);
  }

  lemma OffsetOfPacked(images: seq<Image>, start: nat, k: nat)
    requires ImagesOk(images) && k < |images|
    ensures Offset(start, InfosOf(images), k) == start + |Contents(images[..k])|
    ensures InfosOf(images)[k].size == |images[k].content|
  {
    InfosOfAt(images, k);
    SizeSumIsLength(images[..k]);
  }

  lemma PackedSlice(images: seq<Image>, gap: Bytes, k: nat, start: nat)
    requires Packable(images, gap) && k < |images| && start == StartOffset(images, gap)
    ensures ImageAt(Pack(images, gap), Place(start + |Contents(images[..k])|, |images[k].content|)) ==
            images[k].content
  {
    hide Pack, Contents, Slice, StartOffset, Packable;
    ContentBehind(images, k);
    var at := |Contents(images[..k])|;
    PackedContents(images, gap, at, at + |images[k].content|);
  }

  lemma PackedImage(images: seq<Image>, gap: Bytes, k: nat, start: nat)
    requires Packable(images, gap) && k < |images| && start == StartOffset(images, gap)
    ensures images[k].name in Places(start, InfosOf(images))
    ensures ImageAt(Pack(images, gap), Places(start, InfosOf(images))[images[k].name]) == images[k].content
  {
    PackedNamesDistinct(images, gap);
    assert ImagesOk(images);
    hide *;
    PackedPlace(images, start, k);
    PackedSlice(images, gap, k, start);
  }
}
