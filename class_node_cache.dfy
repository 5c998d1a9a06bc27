/** ClassNodeCache: class names, normalised from type descriptors, map to
    cached class records that are made on the first lookup. */
module ClassCache {
  import opened Base

  /** The record cached per class. Its constructor takes the name twice, an
      empty string and false; the id it carries is made inside that class,
      so a lookup is given the id a new record would get. */
  datatype CachedClassInfo = CachedClassInfo(name: string, alias: string, tag: string, flag: bool, id: int)

  /** `String.format(pointerPattern, id)`: the formatting itself is not modelled. */
  datatype Pointer = Formatted(pattern: string, arg: int)

  /** Names under this prefix are never cached. */
  const OBFUSCATOR: string := "native/magic/1/linkcallsite/obfuscator"

  /** `clazz.endsWith(";") && !clazz.startsWith("[")`: a class type descriptor. */
  predicate Descriptor(clazz: string)
  {
    |clazz| > 0 && clazz[|clazz| - 1] == ';' && clazz[0] != '['
  }

  /** `s.replace(c, "")`: every `c` removed, the rest kept in order. */
  function Strip(s: string, c: char): (r: string)
    ensures c !in r && |r| <= |s|
    ensures forall x :: x in r ==> x in s
    ensures c !in s ==> r == s
  {
    if s == [] then []
    else (if s[0] == c then [] else [s[0]]) + Strip(s[1..], c)
  }

  lemma {:induction false} StripAppend(a: string, b: string, c: char)
    ensures Strip(a + b, c) == Strip(a, c) + Strip(b, c)
  {
    if a != [] {
      assert (a + b)[1..] == a[1..] + b;
      StripAppend(a[1..], b, c);
    } else {
      assert a + b == b;
    }
  }

  /** The name getClass looks up: a descriptor loses one leading 'L' and
      every ';'; any other name is kept as it is. */
  function Normalize(clazz: string): (r: string)
    ensures !Descriptor(clazz) ==> r == clazz
    ensures Descriptor(clazz) ==> ';' !in r && |r| < |clazz|
  {
    if Descriptor(clazz) then
      var body := if clazz[0] == 'L' then clazz[1..] else clazz;
      assert body == body[..|body| - 1] + [';'];
      StripAppend(body[..|body| - 1], [';'], ';');
      Strip(body, ';')
    else clazz
  }

  /** The descriptor of a class named `name` normalises to the name. */
  lemma {:induction false} DescriptorName(name: string)
    requires ';' !in name
    ensures Normalize("L" + name + ";") == name
  {
    var d := "L" + name + ";";
    assert d[1..] == name + ";";
    StripAppend(name, ";", ';');
  }

  /** Normalising twice is normalising once. */
  lemma {:induction false} NormalizeIdempotent(clazz: string)
    ensures Normalize(Normalize(clazz)) == Normalize(clazz)
  {
    var r := Normalize(clazz);
    if Descriptor(clazz) && r != [] {
      assert r[|r| - 1] in r;
    }
  }

  /** A name under the obfuscator's package. */
  predicate Obfuscated(key: string)
  {
    OBFUSCATOR <= key
  }

  /** What a lookup gives and the cache it leaves. */
  datatype Found = Found(info: Option<CachedClassInfo>, cache: map<string, CachedClassInfo>)

  /** getClass on a cache: the normalised name, null under the obfuscator
      prefix, otherwise the record cached under it, made with `freshId`
      on a miss. */
  function Find(cache: map<string, CachedClassInfo>, clazz: string, freshId: int): (f: Found)
    ensures Obfuscated(Normalize(clazz)) ==> f.info == None && f.cache == cache
    ensures !Obfuscated(Normalize(clazz)) ==>
              Normalize(clazz) in f.cache && f.info == Some(f.cache[Normalize(clazz)])
    ensures Normalize(clazz) in cache ==> f.cache == cache
    ensures f.cache.Keys == cache.Keys || f.cache.Keys == cache.Keys + {Normalize(clazz)}
    ensures forall k :: k in cache ==> k in f.cache && f.cache[k] == cache[k]
  {
    var key := Normalize(clazz);
    if Obfuscated(key) then Found(None, cache)
    else
      var cache' := if key in cache then cache else cache[key := CachedClassInfo(key, key, "", false, freshId)];
      Found(Some(cache'[key]), cache')
  }

  /** A lookup grows the cache by at most one entry. */
  lemma {:induction false} FindSize(cache: map<string, CachedClassInfo>, clazz: string, freshId: int)
    ensures |cache| <= |Find(cache, clazz, freshId).cache| <= |cache| + 1
  {
    var f := Find(cache, clazz, freshId);
    var key := Normalize(clazz);
    if f.cache.Keys != cache.Keys {
      assert key !in cache.Keys;
      assert |f.cache.Keys| == |cache.Keys| + 1;
    }
    assert |cache| == |cache.Keys| && |f.cache| == |f.cache.Keys|;
  }

  /** Looking the same class up again gives the same record and leaves the
      cache as it is, whatever id a new record would have got. */
  lemma {:induction false} FindAgain(cache: map<string, CachedClassInfo>, clazz: string, freshId: int, otherId: int)
    ensures var f := Find(cache, clazz, freshId);
            Find(f.cache, clazz, otherId) == f
  {
  }

  /** A descriptor and the name it stands for find the same record. */
  lemma {:induction false} FindDescriptor(cache: map<string, CachedClassInfo>, name: string, freshId: int)
    requires ';' !in name
    ensures Find(cache, "L" + name + ";", freshId) == Find(cache, name, freshId)
  {
    DescriptorName(name);
  }

  /** getId: 0 when getClass gives null, otherwise the record's id. */
  function IdOf(info: Option<CachedClassInfo>): (id: int)
    ensures info.Some? ==> id == info.value.id
    ensures info.None? ==> id == 0
  {
    match info
    case None => 0
    case Some(c) => c.id
  }

  class ClassNodeCache {
    const pointerPattern: string
    var cache: map<string, CachedClassInfo>

    constructor (pointerPattern: string)
      ensures this.pointerPattern == pointerPattern && cache == map[]
    {
      this.pointerPattern := pointerPattern;
      cache := map[];
    }

    /** getClass: normalise the name, refuse the obfuscator's names, and
        put a new record on a miss. */
    method GetClass(clazz: string, freshId: int) returns (r: Option<CachedClassInfo>)
      modifies this
      ensures Found(r, cache) == Find(old(cache), clazz, freshId)
    {
      var key := Normalize(clazz);
      if Obfuscated(key) {
        return None;
      }
      if key !in cache {
        var classInfo := CachedClassInfo(key, key, "", false, freshId);
        cache := cache[key := classInfo];
      }
      r := Some(cache[key]);
    }

    method GetId(clazz: string, freshId: int) returns (id: int)
      modifies this
      ensures var f := Find(old(cache), clazz, freshId);
              cache == f.cache && id == IdOf(f.info)
    {
      var aClass := GetClass(clazz, freshId);
      if aClass.None? {
        return 0;
      }
      id := aClass.value.id;
    }

    method GetPointer(key: string, freshId: int) returns (p: Pointer)
      modifies this
      ensures var f := Find(old(cache), key, freshId);
              cache == f.cache && p == Formatted(pointerPattern, IdOf(f.info))
    {
      var id := GetId(key, freshId);
      p := Formatted(pointerPattern, id);
    }

    /** size(): the number of cached names; 0 exactly when nothing is cached. */
    function Size(): (n: nat)
      reads this
      ensures n == |cache.Keys| && (n == 0 <==> cache == map[])
    {
      |cache|
    }

    function IsEmpty(): (b: bool)
      reads this
      ensures b <==> Size() == 0
    {
      cache == map[]
    }

    method Clear()
      modifies this
      ensures cache == map[] && Size() == 0 && IsEmpty()
    {
      cache := map[];
    }
  }
}
