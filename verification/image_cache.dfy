/**
 * The UIKit variant's two-tier image cache: a memory tier keyed by the cache
 * key and a disk tier of files named by a hash of the key. Memory eviction is
 * the library's business; it is modelled as the removal of an arbitrary set of
 * keys.
 */
module ImageCache {
  import opened Wrappers
  import opened Media
  import Decimal

  /** `NSCache` contents and the files of the cache directory (file name to bytes). */
  datatype Store = Store(memory: map<string, Image>, disk: map<string, Bytes>)

  /** The platform calls the cache relies on. */
  datatype Platform = Platform(
    hashValue: string -> Decimal.SwiftInt,  // `String.hashValue`
    decode: Bytes -> Option<Image>,         // `UIImage(data:)`
    jpeg: Image -> Option<Bytes>            // `jpegData(compressionQuality: 0.8)`
  )

  const EmptyStore: Store := Store(map[], map[])

  /** `abs` traps on the one `Int` whose magnitude does not fit. */
  predicate HashIsAbsSafe(p: Platform, key: string) {
    p.hashValue(key) != Decimal.IntMin
  }

  function Magnitude(n: int): nat {
    if n < 0 then -n else n
  }

  /** `key.sha256()`: the decimal text of `abs(key.hashValue)`. */
  function DiskName(p: Platform, key: string): (name: string)
    requires HashIsAbsSafe(p, key)
    ensures |name| > 0 && Decimal.AllDigits(name)
  {
    Decimal.NatToString(Magnitude(p.hashValue(key)))
  }

  /** Two keys share a disk file exactly when their hash values have the same magnitude. */
  lemma DiskNameShared(p: Platform, k1: string, k2: string)
    requires HashIsAbsSafe(p, k1) && HashIsAbsSafe(p, k2)
    ensures DiskName(p, k1) == DiskName(p, k2) <==> Magnitude(p.hashValue(k1)) == Magnitude(p.hashValue(k2))
  {
    Decimal.DigitsValueOfNatToString(Magnitude(p.hashValue(k1)));
    Decimal.DigitsValueOfNatToString(Magnitude(p.hashValue(k2)));
  }

  /** The image found, if any, and the store afterwards (a disk hit is copied into memory). */
  datatype Lookup = Lookup(image: Option<Image>, store: Store)

  /** The disk tier's decodable image for `key`, if any. */
  function DiskImage(s: Store, p: Platform, key: string): Option<Image>
    requires HashIsAbsSafe(p, key)
  {
    var name := DiskName(p, key);
    if name in s.disk then p.decode(s.disk[name]) else None
  }

  /** `getImage(forKey:)`. */
  function GetImage(s: Store, p: Platform, key: string): (r: Lookup)
    requires HashIsAbsSafe(p, key)
    ensures r.store.disk == s.disk
    ensures key in s.memory ==> r == Lookup(Some(s.memory[key]), s)
    ensures key !in s.memory ==> r.image == DiskImage(s, p, key)
    ensures r.image.None? <==> key !in s.memory && DiskImage(s, p, key).None?
    ensures r.image.Some? ==> r.store.memory == s.memory[key := r.image.value]
    ensures r.image.None? ==> r.store == s
  {
    if key in s.memory then Lookup(Some(s.memory[key]), s)
    else
      match DiskImage(s, p, key)
      case Some(img) => Lookup(Some(img), s.(memory := s.memory[key := img]))
      case None => Lookup(None, s)
  }

  /**
   * `setImage(_:forKey:)`. The memory write always happens; the disk write
   * happens when the JPEG encoding exists and `writeSucceeds`, and a failure
   * is silent.
   */
  function SetImage(s: Store, p: Platform, img: Image, key: string, writeSucceeds: bool): (r: Store)
    requires HashIsAbsSafe(p, key)
    ensures r.memory == s.memory[key := img]
    ensures forall name :: name in s.disk ==> name in r.disk
    ensures forall name :: name in r.disk && name != DiskName(p, key) ==> name in s.disk && r.disk[name] == s.disk[name]
    ensures DiskName(p, key) in r.disk && DiskName(p, key) !in s.disk ==> p.jpeg(img).Some? && writeSucceeds
    ensures p.jpeg(img).Some? && writeSucceeds ==> DiskName(p, key) in r.disk && r.disk[DiskName(p, key)] == p.jpeg(img).value
    ensures p.jpeg(img).None? || !writeSucceeds ==> r.disk == s.disk
  {
    var memory := s.memory[key := img];
    match p.jpeg(img)
    case Some(data) =>
      if writeSucceeds then Store(memory, s.disk[DiskName(p, key) := data]) else Store(memory, s.disk)
    case None => Store(memory, s.disk)
  }

  /**
   * `clearCache()`: memory is emptied; the disk tier is emptied when removing
   * the directory succeeds and is left as it was when it fails.
   */
  function ClearCache(s: Store, removeSucceeds: bool): (r: Store)
    ensures r.memory == map[]
    ensures removeSucceeds ==> r.disk == map[]
    ensures !removeSucceeds ==> r.disk == s.disk
  {
    Store(map[], if removeSucceeds then map[] else s.disk)
  }

  /** `NSCache` dropping some memory entries on its own; the disk tier is untouched. */
  function Evict(s: Store, keys: set<string>): (r: Store)
    ensures r.disk == s.disk
    ensures forall k :: k in r.memory <==> k in s.memory && k !in keys
    ensures forall k :: k in r.memory ==> r.memory[k] == s.memory[k]
  {
    s.(memory := s.memory - keys)
  }

  /** Right after `setImage`, `getImage` returns that image from memory, whatever happened on disk. */
  lemma GetAfterSet(s: Store, p: Platform, img: Image, key: string, writeSucceeds: bool)
    requires HashIsAbsSafe(p, key)
    ensures GetImage(SetImage(s, p, img, key, writeSucceeds), p, key)
         == Lookup(Some(img), SetImage(s, p, img, key, writeSucceeds))
  {
  }

  /** After a successful clear, every key misses, and the lookup changes nothing. */
  lemma GetAfterClear(s: Store, p: Platform, key: string)
    requires HashIsAbsSafe(p, key)
    ensures GetImage(ClearCache(s, true), p, key) == Lookup(None, EmptyStore)
  {
  }

  /**
   * A memory entry that was evicted comes back from disk: the file written by
   * `setImage` is read and promoted into memory again, provided the JPEG bytes
   * decode.
   */
  lemma DiskHitAfterEviction(s: Store, p: Platform, img: Image, key: string, evicted: set<string>)
    requires HashIsAbsSafe(p, key)
    requires p.jpeg(img).Some? && p.decode(p.jpeg(img).value).Some?
    requires key in evicted
    ensures var stored := Evict(SetImage(s, p, img, key, true), evicted);
            var again := p.decode(p.jpeg(img).value).value;
            GetImage(stored, p, key) == Lookup(Some(again), stored.(memory := stored.memory[key := again]))
  {
  }

  /**
   * Keys whose hash values have the same magnitude share one disk file: after
   * writing `k1` and then `k2`, a disk read for `k1` returns `k2`'s image bytes.
   */
  lemma SharedFileLastWriteWins(s: Store, p: Platform, k1: string, img1: Image, k2: string, img2: Image)
    requires HashIsAbsSafe(p, k1) && HashIsAbsSafe(p, k2)
    requires Magnitude(p.hashValue(k1)) == Magnitude(p.hashValue(k2))
    requires p.jpeg(img1).Some? && p.jpeg(img2).Some?
    ensures var stored := SetImage(SetImage(s, p, img1, k1, true), p, img2, k2, true);
            DiskImage(Evict(stored, {k1}), p, k1) == p.decode(p.jpeg(img2).value)
  {
    DiskNameShared(p, k1, k2);
  }
}
