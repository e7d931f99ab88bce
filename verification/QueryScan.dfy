/** The hand-rolled scanners of raw query strings and of the SigV4 header: `hasQueryKey`
    (pkg/metrics/metrics.go), `ExtractAccessKeyFromQuery` and `ExtractAccessKey`
    (pkg/credstore/credstore.go), against specifications that split on '&' first. */
module QueryScan {
  import opened Wrappers
  import opened Text

  /** A parameter's name: everything before the first '=', or the whole segment. */
  function Name(seg: string): string {
    var i := IndexByte(seg, '=');
    if i < 0 then seg else seg[..i]
  }

  /** The first segment and what the loop goes on with. */
  function Cut(query: string): (string, string) {
    var i := IndexByte(query, '&');
    if i < 0 then (query, "") else (query[..i], query[i + 1..])
  }

  /** The segments the loop looks at: the split, without a final empty segment. */
  function Visited(query: string): seq<string>
    decreases |query|
  {
    if query == "" then [] else [Cut(query).0] + Visited(Cut(query).1)
  }

  lemma ConsConcat(head: string, a: seq<string>, b: seq<string>)
    ensures [head] + (a + b) == ([head] + a) + b
  {
  }

  /** What the split has beyond the visited segments: one empty segment after a final '&'. */
  function Unvisited(query: string): seq<string> {
    if query == "" || query[|query| - 1] == '&' then [""] else []
  }

  lemma SplitNone(a: string)
    requires '&' !in a
    ensures Split(a, '&') == [a]
  {
    NoIndex(a, '&');
  }

  lemma HeadAndTail(a: string) returns (head: string, tail: string)
    requires '&' in a
    ensures a == head + "&" + tail && '&' !in head && |tail| < |a|
  {
    NoIndex(a, '&');
    var i := IndexByte(a, '&');
    head, tail := a[..i], a[i + 1..];
  }

  lemma LastSegmentVisited(query: string)
    requires '&' !in query
    ensures [query] == Visited(query) + Unvisited(query)
  {
    NoIndex(query, '&');
    assert query != "" ==> query[|query| - 1] in query;
  }

  lemma IndexPiece(a: string, b: string)
    requires '&' !in a
    ensures var s := a + "&" + b; IndexByte(s, '&') == |a| && s[..|a|] == a && s[|a| + 1..] == b
  {
    FirstIndex(a + "&" + b, '&', |a|);
  }

  lemma SplitPiece(a: string, b: string)
    requires '&' !in a
    ensures Split(a + "&" + b, '&') == [a] + Split(b, '&')
  {
    IndexPiece(a, b);
  }

  lemma VisitedPiece(a: string, b: string)
    requires '&' !in a
    ensures Visited(a + "&" + b) == [a] + Visited(b)
  {
    IndexPiece(a, b);
    assert Cut(a + "&" + b) == (a, b);
  }

  lemma UnvisitedPiece(a: string, b: string)
    ensures Unvisited(a + "&" + b) == Unvisited(b)
  {
    var s := a + "&" + b;
    assert s[|s| - 1] == if b == "" then '&' else b[|b| - 1];
  }

  lemma {:induction false} VisitedIsSplit(query: string)
    ensures Split(query, '&') == Visited(query) + Unvisited(query)
    decreases |query|
  {
    if '&' in query {
      var head, tail := HeadAndTail(query);
      SplitPiece(head, tail);
      VisitedPiece(head, tail);
      UnvisitedPiece(head, tail);
      VisitedIsSplit(tail);
      ConsConcat(head, Visited(tail), Unvisited(tail));
    } else {
      SplitNone(query);
      LastSegmentVisited(query);
    }
  }

  /** A name is what stands before the first '=', if there is one. */
  lemma NameStands(seg: string, name: string)
    ensures Name(seg) == name <==> '=' !in name && (seg == name || name + "=" <= seg)
  {
    var i := IndexByte(seg, '=');
    if '=' !in name && name + "=" <= seg {
      assert seg[|name|] == '=';
      assert forall k :: 0 <= k < |name| ==> seg[k] == name[k] && name[k] in name;
      FirstIndex(seg, '=', |name|);
    }
    if i >= 0 && Name(seg) == name {
      assert name + "=" == seg[..i + 1];
    }
  }

  ghost predicate HasName(segs: seq<string>, key: string) {
    exists seg <- segs :: Name(seg) == key
  }

  lemma HasNameOne(seg: string, key: string)
    ensures HasName([seg], key) <==> Name(seg) == key
  {
    assert seg in [seg];
  }

  lemma HasNameVisited(query: string, key: string)
    requires key != ""
    ensures HasName(Visited(query), key) <==> HasName(Split(query, '&'), key)
  {
  }

  lemma HasNameStep(query: string, key: string)
    requires query != ""
    ensures HasName(Visited(query), key) <==> Name(Cut(query).0) == key || HasName(Visited(Cut(query).1), key)
  {
  }

  /** `hasQueryKey`. An empty key is found in an empty segment, unless that is the last one. */
  method HasQueryKey(query: string, key: string) returns (found: bool)
    ensures found <==> HasName(Visited(query), key)
    ensures key != "" ==> (found <==> HasName(Split(query, '&'), key))
  {
    if key != "" {
      HasNameVisited(query, key);
    }
    var rest := query;
    while |rest| > 0
      invariant HasName(Visited(query), key) <==> HasName(Visited(rest), key)
      decreases |rest|
    {
      HasNameStep(rest, key);
      var seg := rest;
      var i := IndexByte(seg, '&');
      if i >= 0 {
        seg, rest := rest[..i], rest[i + 1..];
      } else {
        rest := "";
      }
      var name := seg;
      var j := IndexByte(seg, '=');
      if j >= 0 {
        name := seg[..j];
      }
      if name == key {
        return true;
      }
    }
    return false;
  }

  // Presigned URLs

  const CREDENTIAL := "X-Amz-Credential"

  predicate IsCredential(seg: string) {
    '=' in seg && EqualFold(Name(seg), CREDENTIAL)
  }

  /** Every segment but a parameter of that name, in any case, with a value is skipped. */
  lemma CredentialStands(seg: string)
    ensures IsCredential(seg) <==>
              exists name :: '=' !in name && name + "=" <= seg && EqualFold(name, "X-Amz-Credential")
  {
    NameStands(seg, Name(seg));
    if '=' in seg {
      NoIndex(seg, '=');
      assert Name(seg) + "=" == seg[..IndexByte(seg, '=') + 1];
    }
    forall name | '=' !in name && name + "=" <= seg
      ensures Name(seg) == name && '=' in seg
    {
      NameStands(seg, name);
      assert seg[|name|] == '=';
    }
  }

  function Value(seg: string): string
    requires '=' in seg
  {
    seg[IndexByte(seg, '=') + 1..]
  }

  /** Decoder of percent-encoded slashes only, in either case (section 2.1 of RFC 3986). */
  function DecodeSlashes(s: string): string
    decreases |s|
  {
    if s == "" then ""
    else if "%2F" <= s || "%2f" <= s then "/" + DecodeSlashes(s[3..])
    else [s[0]] + DecodeSlashes(s[1..])
  }

  /** The access key of a credential value: the part before the first slash, if not empty. */
  function KeyOf(value: string): Option<string> {
    var i := IndexByte(value, '/');
    if i > 0 then Some(value[..i]) else None
  }

  /** The first credential segment decides, whatever follows. */
  function KeyInSegments(segs: seq<string>): Option<string> {
    if segs == [] then None
    else if IsCredential(segs[0]) then KeyOf(DecodeSlashes(Value(segs[0])))
    else KeyInSegments(segs[1..])
  }

  function KeyInQuery(query: string): Option<string> {
    KeyInSegments(Split(query, '&'))
  }

  predicate Starts(s: string, a: char, b: char, c: char) {
    |s| >= 3 && s[0] == a && s[1] == b && s[2] == c
  }

  lemma StartsPrefix(s: string)
    ensures "%2F" <= s <==> Starts(s, '%', '2', 'F')
    ensures "%2f" <= s <==> Starts(s, '%', '2', 'f')
  {
  }

  /** The first pass keeps the first byte, unless it decodes there. */
  lemma FirstPassHead(s: string)
    requires s != ""
    ensures var r := ReplaceAll(s, "%2F", "/");
            if "%2F" <= s then r == "/" + ReplaceAll(s[3..], "%2F", "/") else r == [s[0]] + ReplaceAll(s[1..], "%2F", "/")
  {
  }

  /** Whether the first pass leaves a lower-case code at the front: only where there was one. */
  lemma FirstPassKeeps(s: string)
    ensures Starts(ReplaceAll(s, "%2F", "/"), '%', '2', 'f') <==> Starts(s, '%', '2', 'f')
    ensures Starts(s, '%', '2', 'f') ==> ReplaceAll(s, "%2F", "/")[3..] == ReplaceAll(s[3..], "%2F", "/")
  {
    StartsPrefix(s);
    if s != "" {
      FirstPassHead(s);
      if |s| > 1 {
        FirstPassHead(s[1..]);
        StartsPrefix(s[1..]);
        assert s[1..][1..] == s[2..];
        if |s| > 2 {
          FirstPassHead(s[2..]);
          StartsPrefix(s[2..]);
          assert s[2..][1..] == s[3..];
        }
      }
    }
  }

  /** The two ReplaceAll passes are one decoder: the first pass neither creates nor destroys an
      occurrence of the second pattern. */
  lemma {:induction false} TwoPassesDecode(s: string)
    ensures ReplaceAll(ReplaceAll(s, "%2F", "/"), "%2f", "/") == DecodeSlashes(s)
    decreases |s|
  {
    var r := ReplaceAll(s, "%2F", "/");
    if s != "" {
      StartsPrefix(s);
      StartsPrefix(r);
      FirstPassHead(s);
      FirstPassKeeps(s);
      if "%2F" <= s {
        TwoPassesDecode(s[3..]);
        assert r[1..] == ReplaceAll(s[3..], "%2F", "/");
      } else if "%2f" <= s {
        TwoPassesDecode(s[3..]);
      } else {
        TwoPassesDecode(s[1..]);
        assert r[1..] == ReplaceAll(s[1..], "%2F", "/");
      }
    }
  }

  lemma VisitedSameKey(query: string)
    ensures KeyInSegments(Visited(query)) == KeyInQuery(query)
  {
    VisitedIsSplit(query);
    KeySkips(Visited(query), Unvisited(query));
  }

  lemma {:induction false} NoKey(segs: seq<string>)
    requires forall seg <- segs :: !IsCredential(seg)
    ensures KeyInSegments(segs) == None
  {
    if segs != [] {
      assert segs[0] in segs && forall seg <- segs[1..] :: seg in segs;
      NoKey(segs[1..]);
    }
  }

  /** Segments without a credential in front or behind change nothing. */
  lemma {:induction false} KeySkips(a: seq<string>, b: seq<string>)
    ensures (forall seg <- a :: !IsCredential(seg)) ==> KeyInSegments(a + b) == KeyInSegments(b)
    ensures (forall seg <- b :: !IsCredential(seg)) ==> KeyInSegments(a + b) == KeyInSegments(a)
  {
    if a == [] {
      assert [] + b == b;
      if forall seg <- b :: !IsCredential(seg) {
        NoKey(b);
      }
    } else {
      assert (a + b)[0] == a[0] && (a + b)[1..] == a[1..] + b;
      assert a[0] in a && forall seg <- a[1..] :: seg in a;
      KeySkips(a[1..], b);
    }
  }

  lemma KeyStep(query: string)
    requires query != ""
    ensures var (seg, next) := Cut(query);
            KeyInSegments(Visited(query))
            == if IsCredential(seg) then KeyOf(DecodeSlashes(Value(seg))) else KeyInSegments(Visited(next))
  {
  }

  // The value of the first credential segment
  method KeyOfValue(encoded: string) returns (ak: Option<string>)
    ensures ak == KeyOf(DecodeSlashes(encoded))
  {
    TwoPassesDecode(encoded);
    var val := ReplaceAll(encoded, "%2F", "/");
    val := ReplaceAll(val, "%2f", "/");
    var slash := IndexByte(val, '/');
    if slash <= 0 {
      return None;
    }
    return Some(val[..slash]);
  }

  lemma NameAndValue(seg: string)
    ensures var eq := IndexByte(seg, '=');
            && (IsCredential(seg) <==> eq >= 0 && EqualFold(seg[..eq], CREDENTIAL))
            && (eq >= 0 ==> '=' in seg && Value(seg) == seg[eq + 1..])
  {
    NoIndex(seg, '=');
  }

  /** `ExtractAccessKeyFromQuery`. */
  method ExtractAccessKeyFromQuery(query: string) returns (ak: Option<string>)
    ensures ak == KeyInQuery(query)
  {
    VisitedSameKey(query);
    var rest := query;
    while |rest| > 0
      invariant KeyInSegments(Visited(query)) == KeyInSegments(Visited(rest))
      decreases |rest|
    {
      KeyStep(rest);
      var seg := rest;
      var i := IndexByte(seg, '&');
      if i >= 0 {
        seg, rest := rest[..i], rest[i + 1..];
      } else {
        rest := "";
      }
      NameAndValue(seg);
      var eq := IndexByte(seg, '=');
      if eq < 0 {
        continue;
      }
      if !EqualFold(seg[..eq], CREDENTIAL) {
        continue;
      }
      ak := KeyOfValue(seg[eq + 1..]);
      return;
    }
    return None;
  }

  // Round trip

  lemma Regroup(a: string, b: string, c: string, x: seq<string>, y: seq<string>)
    ensures (a + "&" + b) + "&" + c == a + "&" + (b + "&" + c)
    ensures [a] + (x + y) == ([a] + x) + y
  {
  }

  lemma {:induction false} SplitConcat(a: string, b: string)
    ensures Split(a + "&" + b, '&') == Split(a, '&') + Split(b, '&')
    decreases |a|
  {
    if '&' in a {
      var head, tail := HeadAndTail(a);
      SplitConcat(tail, b);
      SplitPiece(head, tail);
      SplitPiece(head, tail + "&" + b);
      Regroup(head, tail, b, Split(tail, '&'), Split(b, '&'));
    } else {
      SplitNone(a);
      SplitPiece(a, b);
    }
  }

  /** The first segment of a split is the string up to the first '&'. */
  lemma SplitHead(s: string)
    ensures Split(s, '&')[0] == Cut(s).0
  {
  }

  /** How much of the front one decoding step consumes, and what it writes. */
  function Step(s: string): (nat, string)
    requires s != ""
  {
    if "%2F" <= s || "%2f" <= s then (3, "/") else (1, [s[0]])
  }

  lemma DecodeStep(s: string)
    requires s != ""
    ensures Step(s).0 <= |s| && DecodeSlashes(s) == Step(s).1 + DecodeSlashes(s[Step(s).0..])
  {
  }

  /** A slash, as it is or percent-encoded. */
  predicate IsSlash(code: string) {
    code == "/" || code == "%2F" || code == "%2f"
  }

  /** A code cannot straddle the end of `a` when a slash follows. */
  lemma StepStays(a: string, b: string)
    requires a != "" && b != "" && b[0] in {'%', '/'}
    ensures Step(a + b) == Step(a)
    ensures Step(a).0 <= |a| && (a + b)[Step(a).0..] == a[Step(a).0..] + b
  {
    StartsPrefix(a);
    StartsPrefix(a + b);
    assert (a + b)[|a|] == b[0];
  }

  lemma Associate(a: string, b: string, c: string)
    ensures a + (b + c) == (a + b) + c
  {
  }

  lemma {:induction false} DecodeConcat(a: string, b: string)
    requires b != "" && b[0] in {'%', '/'}
    ensures DecodeSlashes(a + b) == DecodeSlashes(a) + DecodeSlashes(b)
    decreases |a|
  {
    if a == "" {
      assert a + b == b;
      assert "" + DecodeSlashes(b) == DecodeSlashes(b);
    } else {
      StepStays(a, b);
      DecodeStep(a);
      DecodeStep(a + b);
      var rest := a[Step(a).0..];
      DecodeConcat(rest, b);
      Associate(Step(a).1, DecodeSlashes(rest), DecodeSlashes(b));
    }
  }

  lemma DecodeCode(code: string, rest: string)
    requires IsSlash(code)
    ensures DecodeSlashes(code + rest) == "/" + DecodeSlashes(rest)
  {
    assert (code + rest)[|code|..] == rest;
  }

  lemma {:induction false} DecodeNoSlash(s: string)
    requires '/' !in DecodeSlashes(s)
    ensures DecodeSlashes(s) == s
    decreases |s|
  {
    if s != "" {
      assert DecodeSlashes(s) == [s[0]] + DecodeSlashes(s[1..]);
      assert DecodeSlashes(s)[1..] == DecodeSlashes(s[1..]);
      DecodeNoSlash(s[1..]);
    }
  }

  lemma IndexOfFirst(a: string, c: char, b: string)
    requires c !in a
    ensures IndexByte(a + [c] + b, c) == |a|
  {
    FirstIndex(a + [c] + b, c, |a|);
  }

  /** A slash, plain or encoded, somewhere in a string. */
  ghost predicate HasSlash(s: string) {
    exists i :: 0 <= i < |s| && SlashAt(s, i)
  }

  predicate SlashAt(s: string, i: nat)
    requires i < |s|
  {
    s[i] == '/' || "%2F" <= s[i..] || "%2f" <= s[i..]
  }

  lemma {:induction false} DecodedSlash(s: string)
    ensures '/' in DecodeSlashes(s) <==> HasSlash(s)
    decreases |s|
  {
    if s != "" {
      assert s[0..] == s;
      var d := DecodeSlashes(s);
      if SlashAt(s, 0) {
        assert d[0] == '/';
      } else {
        DecodedSlash(s[1..]);
        assert d == [s[0]] + DecodeSlashes(s[1..]) && s[0] != '/';
        assert forall i :: 1 <= i < |s| ==> s[1..][i - 1..] == s[i..];
        assert forall i :: 0 <= i < |s| - 1 ==> (SlashAt(s[1..], i) <==> SlashAt(s, i + 1));
        assert forall i :: 1 <= i < |s| ==> (SlashAt(s, i) <==> SlashAt(s[1..], i - 1));
      }
    }
  }

  lemma {:induction false} DecodeAddsOnlySlashes(s: string, c: char)
    requires c in DecodeSlashes(s) && c != '/'
    ensures c in s
    decreases |s|
  {
    if s == "" {
    } else if "%2F" <= s || "%2f" <= s {
      assert DecodeSlashes(s)[1..] == DecodeSlashes(s[3..]);
      DecodeAddsOnlySlashes(s[3..], c);
    } else if c != s[0] {
      assert DecodeSlashes(s)[1..] == DecodeSlashes(s[1..]);
      DecodeAddsOnlySlashes(s[1..], c);
    }
  }

  lemma DecodedScope(ak: string, code: string, rest: string)
    requires IsSlash(code)
    ensures DecodeSlashes(ak + code + rest) == DecodeSlashes(ak) + "/" + DecodeSlashes(rest)
  {
    Associate(ak, code, rest);
    DecodeConcat(ak, code + rest);
    DecodeCode(code, rest);
    Associate(DecodeSlashes(ak), "/", DecodeSlashes(rest));
  }

  /** A credential value of an access key, a slash in any spelling and a scope gives back the key
      exactly when that is not empty and has no slash, plain or encoded. */
  lemma ValueRoundTrip(ak: string, code: string, rest: string)
    requires IsSlash(code)
    ensures KeyOf(DecodeSlashes(ak + code + rest)) == Some(ak) <==> ak != "" && '/' !in DecodeSlashes(ak)
  {
    DecodedScope(ak, code, rest);
    var decoded := DecodeSlashes(ak);
    var d := decoded + "/" + DecodeSlashes(rest);
    if '/' !in decoded {
      DecodeNoSlash(ak);
      IndexOfFirst(ak, '/', DecodeSlashes(rest));
      assert d[..|ak|] == ak;
    } else {
      NoIndex(decoded, '/');
      var j := IndexByte(decoded, '/');
      assert d[j] == '/' && forall k :: 0 <= k < j ==> d[k] == decoded[k];
      FirstIndex(d, '/', j);
      DecodeShrinks(ak);
    }
  }

  lemma {:induction false} DecodeShrinks(s: string)
    ensures |DecodeSlashes(s)| <= |s|
    decreases |s|
  {
    if s == "" {
    } else if "%2F" <= s || "%2f" <= s {
      DecodeShrinks(s[3..]);
    } else {
      DecodeShrinks(s[1..]);
    }
  }

  lemma ParameterSegment(name: string, scope: string)
    requires '=' !in name && '&' !in name && EqualFold(name, CREDENTIAL)
    ensures var seg := Cut(name + "=" + scope).0;
            IsCredential(seg) && Value(seg) == Cut(scope).0
  {
    var value := Cut(scope).0;
    CutAfter(name + "=", scope);
    var seg := name + "=" + value;
    IndexOfFirst(name, '=', value);
    assert Name(seg) == name;
  }

  /** A decoded value without '&' is no key that contains one. */
  lemma KeyHasNoSeparator(value: string, ak: string)
    requires '&' !in value && '&' in ak
    ensures KeyOf(DecodeSlashes(value)) != Some(ak)
  {
    if KeyOf(DecodeSlashes(value)) == Some(ak) {
      var k :| 0 <= k < |ak| && ak[k] == '&';
      assert DecodeSlashes(value)[k] == '&';
      DecodeAddsOnlySlashes(value, '&');
    }
  }

  /** The credential parameter alone: what follows it in the query does not matter. */
  lemma ParameterRoundTrip(name: string, ak: string, code: string, rest: string)
    requires '=' !in name && '&' !in name && EqualFold(name, CREDENTIAL) && IsSlash(code)
    ensures var seg := Cut(name + "=" + (ak + code + rest)).0;
            && IsCredential(seg)
            && (KeyOf(DecodeSlashes(Value(seg))) == Some(ak) <==> ak != "" && '&' !in ak && '/' !in DecodeSlashes(ak))
  {
    var scope := ak + code + rest;
    ParameterSegment(name, scope);
    CutHasNoSeparator(scope);
    if '&' in ak {
      KeyHasNoSeparator(Cut(scope).0, ak);
    } else {
      CutAfter(ak + code, rest);
      ValueRoundTrip(ak, code, Cut(rest).0);
    }
  }

  lemma CutHasNoSeparator(s: string)
    ensures '&' !in Cut(s).0
  {
    NoIndex(s, '&');
  }

  /** The parameters in front of the credential: none, or some that end in their separator. */
  predicate IsFront(front: string) {
    front == "" || front[|front| - 1] == '&'
  }

  lemma FrontIs(front: string, tail: string) returns (before: string)
    requires IsFront(front) && front != ""
    ensures front == before + "&" && front + tail == before + "&" + tail
  {
    before := front[..|front| - 1];
  }

  /** What ends in a separator splits into the same segments and an empty one. */
  lemma SplitFront(before: string)
    ensures Split(before + "&", '&') == Split(before, '&') + [""]
  {
    SplitConcat(before, "");
    assert before + "&" + "" == before + "&";
    SplitNone("");
  }

  /** The query of a presigned URL, by its parts: the parameters in front of the credential, the name
      of that one, the access key, the slash behind it and the rest. */
  ghost predicate Presigned(query: string, front: string, name: string, ak: string, code: string, rest: string) {
    && query == front + (name + "=" + (ak + code + rest))
    && '=' !in name && '&' !in name && EqualFold(name, "X-Amz-Credential") && IsSlash(code)
    && IsFront(front) && forall seg <- Split(front, '&') :: !IsCredential(seg)
  }

  /** A presigned query: its credential parameter, spelled in any case, comes first or after
      parameters that are no credential, and a slash in any spelling follows the access key. It
      gives back exactly that key if and only if the key is not empty and has no '&' and no slash,
      plain or encoded. */
  lemma QueryRoundTrip(query: string, front: string, name: string, ak: string, code: string, rest: string)
    requires Presigned(query, front, name, ak, code, rest)
    ensures KeyInQuery(query) == Some(ak) <==> ak != "" && '&' !in ak && !HasSlash(ak)
  {
    DecodedSlash(ak);
    var tail := name + "=" + (ak + code + rest);
    SplitHead(tail);
    ParameterRoundTrip(name, ak, code, rest);
    BehindFront(front, tail);
  }

  /** The first credential parameter decides, whatever follows: if its value has no slash, or begins
      with one, the query names no key at all. */
  lemma FirstCredentialDecides(front: string, seg: string, rest: string)
    requires IsFront(front) && forall s <- Split(front, '&') :: !IsCredential(s)
    requires '&' !in seg && IsCredential(seg)
    ensures KeyInQuery(front + (seg + "&" + rest)) == KeyInQuery(front + seg) == KeyOf(DecodeSlashes(Value(seg)))
    ensures !HasSlash(Value(seg)) || SlashAt(Value(seg), 0) ==> KeyInQuery(front + seg).None?
  {
    SplitPiece(seg, rest);
    SplitNone(seg);
    BehindFront(front, seg);
    BehindFront(front, seg + "&" + rest);
    DecodedSlash(Value(seg));
    NoIndex(DecodeSlashes(Value(seg)), '/');
    assert Value(seg) != "" ==> Value(seg)[0..] == Value(seg);
  }

  lemma BehindFront(front: string, tail: string)
    requires IsFront(front) && forall seg <- Split(front, '&') :: !IsCredential(seg)
    ensures KeyInQuery(front + tail) == KeyInQuery(tail)
  {
    if front == "" {
      assert front + tail == tail;
    } else {
      var before := FrontIs(front, tail);
      SplitFront(before);
      SplitConcat(before, tail);
      assert forall seg <- Split(before, '&') :: seg in Split(front, '&');
      KeySkips(Split(before, '&'), Split(tail, '&'));
    }
  }

  lemma CutAfter(a: string, b: string)
    requires '&' !in a
    ensures Cut(a + b).0 == a + Cut(b).0
  {
    var j := IndexByte(b, '&');
    if j >= 0 {
      FirstIndex(a + b, '&', |a| + j);
    } else {
      NoIndex(b, '&');
      NoIndex(a + b, '&');
    }
  }

  // The Authorization header

  const FIELD := "Credential="

  /** `ExtractAccessKey`. */
  function ExtractAccessKey(header: string): Option<string> {
    var i := Index(header, FIELD);
    if i < 0 then None else KeyOf(header[i + |FIELD|..])
  }

  ghost predicate FirstFieldAt(header: string, p: int) {
    0 <= p <= |header| && "Credential=" <= header[p..] && forall k :: 0 <= k < p ==> !("Credential=" <= header[k..])
  }

  lemma FirstFieldIsIndex(header: string, p: int)
    ensures FirstFieldAt(header, p) <==> p >= 0 && p == Index(header, FIELD)
  {
  }

  lemma KeyOfIs(value: string, ak: string)
    ensures KeyOf(value) == Some(ak) <==> ak != "" && '/' !in ak && ak + "/" <= value
  {
    var i := IndexByte(value, '/');
    if ak != "" && '/' !in ak && ak + "/" <= value {
      var tail := value[|ak| + 1..];
      assert value == ak + ['/'] + tail;
      IndexOfFirst(ak, '/', tail);
      assert value[..|ak|] == ak;
    }
    if KeyOf(value) == Some(ak) {
      assert value[..i] == ak;
      assert forall k :: 0 <= k < |ak| ==> ak[k] == value[k];
      assert ak + "/" == value[..i + 1];
    }
  }

  /** The header names `ak` exactly when its first `Credential=` is followed by `ak` and a slash,
      for a non-empty `ak` without slash. */
  lemma HeaderNames(header: string, ak: string)
    ensures ExtractAccessKey(header) == Some(ak)
            <==> ak != "" && '/' !in ak && exists p :: FirstFieldAt(header, p) && ak + "/" <= header[p + 11..]
  {
    var i := Index(header, FIELD);
    FirstFieldIsIndex(header, i);
    if i >= 0 {
      KeyOfIs(header[i + |FIELD|..], ak);
    }
    forall p {
      FirstFieldIsIndex(header, p);
    }
  }
}
