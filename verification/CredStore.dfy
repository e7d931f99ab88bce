/** The credential store of pkg/credstore/credstore.go: validation of a payload and the atomically
    swapped map. Decoding JSON is a parameter; the checks around it are the code's own. A `char`
    stands for a rune here, as `unicode.IsSpace` sees it; strings are only compared otherwise. */
module CredStore {
  import opened Wrappers
  import opened Text

  /** Access key to secret. */
  type Credentials = map<string, string>

  /** `json.Unmarshal` into a string map; None for a syntax or type error. */
  type Decoder = string -> Option<Credentials>

  // Validation

  /** `unicode.IsSpace`. */
  predicate IsSpace(c: char) {
    c in {'\t', '\n', '\U{000B}', '\U{000C}', '\r', ' ', '\U{0085}', '\U{00A0}', '\U{1680}',
          '\U{2028}', '\U{2029}', '\U{202F}', '\U{205F}', '\U{3000}'}
    || '\U{2000}' <= c <= '\U{200A}'
  }

  predicate Blank(s: string) {
    forall c <- s :: IsSpace(c)
  }

  /** `strings.TrimSpace`. */
  function TrimSpace(s: string): string {
    Trim(s, IsSpace)
  }

  /** The code points with the Unicode property White_Space. */
  lemma SpaceCodePoints(c: char)
    ensures var n := c as int;
            IsSpace(c) <==> 9 <= n <= 13 || n == 32 || n == 0x85 || n == 0xA0 || n == 0x1680 || 0x2000 <= n <= 0x200A
                            || n == 0x2028 || n == 0x2029 || n == 0x202F || n == 0x205F || n == 0x3000
  {
  }

  /** Trimming takes white space off both ends, all of it and nothing else. */
  lemma TrimSpaceTrims(s: string) returns (before: string, after: string)
    ensures s == before + TrimSpace(s) + after && Blank(before) && Blank(after)
    ensures var t := TrimSpace(s); t != "" ==> !IsSpace(t[0]) && !IsSpace(t[|t| - 1])
  {
    before, after := TrimTrims(s, IsSpace);
  }

  lemma TrimSpaceBlank(s: string)
    ensures TrimSpace(s) == "" <==> Blank(s)
  {
    var before, after := TrimSpaceTrims(s);
    var t := TrimSpace(s);
    assert forall c :: c in s <==> c in before || c in t || c in after;
    assert t != "" ==> t[0] in t;
  }

  /** A map fit to authorise callers. */
  predicate Acceptable(m: Credentials) {
    m != map[] && forall k <- m :: !Blank(k) && !Blank(m[k])
  }

  /** What a payload stands for, if it is accepted. */
  function Accepted(decode: Decoder, data: string): (m: Option<Credentials>)
    ensures m.Some? ==> Acceptable(m.value)
  {
    if Blank(data) then None
    else match decode(TrimSpace(data))
         case Some(m) => if Acceptable(m) then Some(m) else None
         case None => None
  }

  /** A payload is accepted as the very map it decodes to, after trimming, if that is not empty and
      has neither a blank access key nor a blank secret. */
  lemma AcceptedExactly(decode: Decoder, data: string, m: Credentials)
    ensures Accepted(decode, data) == Some(m) <==>
              && !Blank(data) && decode(TrimSpace(data)) == Some(m)
              && m != map[] && forall k <- m :: !Blank(k) && !Blank(m[k])
  {
  }

  datatype ParseError = EmptyPayload | BadJson | EmptyObject | EmptyAccessKey | EmptySecret(ak: string)

  /** `parse`; entries are visited in no fixed order, so of several bad ones any may be reported. */
  method Parse(decode: Decoder, data: string) returns (r: Result<Credentials, ParseError>)
    ensures r.Success? <==> Accepted(decode, data).Some?
    ensures r.Success? ==> Some(r.value) == Accepted(decode, data) == decode(TrimSpace(data))
    ensures r == Failure(EmptyPayload) <==> Blank(data)
    ensures r == Failure(BadJson) <==> !Blank(data) && decode(TrimSpace(data)).None?
    ensures r == Failure(EmptyObject) <==> !Blank(data) && decode(TrimSpace(data)) == Some(map[])
    ensures r == Failure(EmptyAccessKey) ==> exists k <- decode(TrimSpace(data)).value :: Blank(k)
    ensures r.Failure? && r.error.EmptySecret? ==>
              var m := decode(TrimSpace(data)).value;
              r.error.ak in m && !Blank(r.error.ak) && Blank(m[r.error.ak])
  {
    TrimSpaceBlank(data);
    var trimmed := TrimSpace(data);
    if trimmed == "" {
      return Failure(EmptyPayload);
    }
    var decoded := decode(trimmed);
    if decoded.None? {
      return Failure(BadJson);
    }
    var m := decoded.value;
    if |m| == 0 {
      assert m == map[];
      return Failure(EmptyObject);
    }
    var remaining := m.Keys;
    while remaining != {}
      invariant remaining <= m.Keys
      invariant forall k <- m :: k !in remaining ==> !Blank(k) && !Blank(m[k])
    {
      var k :| k in remaining;
      TrimSpaceBlank(k);
      TrimSpaceBlank(m[k]);
      if TrimSpace(k) == "" {
        return Failure(EmptyAccessKey);
      }
      if TrimSpace(m[k]) == "" {
        return Failure(EmptySecret(k));
      }
      remaining := remaining - {k};
    }
    return Success(m);
  }

  // The store

  /** A Go map: shared by reference and updated in place. */
  class GoMap {
    var entries: Credentials

    constructor ()
      ensures entries == map[]
    {
      entries := map[];
    }

    constructor From(entries: Credentials)
      ensures this.entries == entries
    {
      this.entries := entries;
    }

    method Put(key: string, value: string)
      modifies this
      ensures entries == old(entries)[key := value]
    {
      entries := entries[key := value];
    }
  }

  /** A metric that can be set. */
  class Gauge {
    var value: int

    method Set(value: int)
      modifies this
      ensures this.value == value
    {
      this.value := value;
    }
  }

  class Store {
    var v: GoMap
    const loaded: Gauge

    ghost function Contents(): Credentials
      reads this, v
    {
      v.entries
    }

    // New
    constructor (loaded: Gauge)
      ensures fresh(v) && Contents() == map[] && this.loaded == loaded
    {
      this.loaded := loaded;
      v := new GoMap();
    }

    /** The caller's map is copied: whatever happens to it later, the store keeps what it was. */
    method Replace(m: GoMap)
      modifies this, loaded
      ensures fresh(v)
      ensures Contents() == m.entries
      ensures loaded.value == |Contents()|
    {
      var cp := new GoMap();
      var remaining := m.entries.Keys;
      while remaining != {}
        invariant remaining <= m.entries.Keys
        invariant cp.entries == map k | k in m.entries && k !in remaining :: m.entries[k]
        modifies cp
      {
        var k :| k in remaining;
        cp.Put(k, m.entries[k]);
        remaining := remaining - {k};
      }
      assert cp.entries == m.entries;
      v := cp;
      loaded.Set(|cp.entries|);
    }

    method Lookup(ak: string) returns (sk: string, ok: bool)
      ensures ok <==> ak in Contents()
      ensures sk == if ok then Contents()[ak] else ""
    {
      var m := v;
      ok := ak in m.entries;
      sk := if ok then m.entries[ak] else "";
    }

    method Size() returns (n: nat)
      ensures n == |Contents()|
    {
      n := |v.entries|;
    }
  }

  /** A caller that reuses its map after handing it to `Replace` does not change what is looked up. */
  method ReplaceIsDefensive(store: Store, m: GoMap, key: string, value: string) returns (sk: string, ok: bool)
    modifies store, store.loaded, m
    ensures store.Contents() == old(m.entries)
    ensures ok <==> key in old(m.entries)
    ensures ok ==> sk == old(m.entries)[key]
  {
    store.Replace(m);
    m.Put(key, value);
    sk, ok := store.Lookup(key);
  }
}
