/**
 * The mini-app package cache of frontend/public/sw.js, one request at a time and without faults:
 * what is stored and what the persisted index says are the same thing.
 */
module PackageCache {
  import opened Lru
  import opened Results
  import opened Sequences

  // ---------------------------------------------------------------- addresses

  /** A request URL: `path` holds the pieces of the pathname between its slashes. */
  datatype Url = Url(scheme: string, host: string, path: seq<string>) | Unparsable(text: string)

  const MAX_ENTRIES := 60

  /** The synthetic key the index is stored under, inside the package cache itself. */
  const INDEX_URL := Url("https:", "miniapp-cache-index.fairwins.invalid", ["", "index.json"])

  predicate IsBase58(c: char) {
    '1' <= c <= '9' || ('A' <= c <= 'Z' && c != 'I' && c != 'O') || ('a' <= c <= 'z' && c != 'l')
  }

  predicate IsBase32(c: char) {
    'a' <= c <= 'z' || '2' <= c <= '7'
  }

  predicate IsCid(s: string) {
    || (|s| == 46 && "Qm" <= s && forall i | 2 <= i < |s| :: IsBase58(s[i]))
    || (|s| >= 59 && "b" <= s && forall i | 1 <= i < |s| :: IsBase32(s[i]))
  }

  function Segments(path: seq<string>): (r: seq<string>)
    ensures |r| <= |path|
  {
    if path == [] then [] else (if path[0] == "" then [] else [path[0]]) + Segments(path[1..])
  }

  predicate IsPackageUrl(u: Url) {
    && u.Url? && (u.scheme == "https:" || u.scheme == "http:")
    && var s := Segments(u.path);
       |s| >= 3 && s[0] == "ipfs" && IsCid(s[1])
  }

  /** The index key is never taken for a package, so it is neither served nor overwritten as one. */
  lemma IndexIsNoPackage()
    ensures !IsPackageUrl(INDEX_URL)
  {
  }

  // ---------------------------------------------------------------- which URLs are packages

  predicate IsAlphanumeric(c: char) {
    '0' <= c <= '9' || 'A' <= c <= 'Z' || 'a' <= c <= 'z'
  }

  /** Base 58 leaves out the four characters that look like others. */
  lemma Base58Exactly(c: char)
    ensures IsBase58(c) <==> IsAlphanumeric(c) && c !in "0OIl"
  {
  }

  /** Base 32 is the small letters and the digits that look like none of them. */
  lemma Base32Exactly(c: char)
    ensures IsBase32(c) <==> IsAlphanumeric(c) && !('A' <= c <= 'Z') && c !in "0189"
  {
  }

  ghost predicate AllBase58(t: string) {
    forall i | 0 <= i < |t| :: IsBase58(t[i])
  }

  ghost predicate AllBase32(t: string) {
    forall i | 0 <= i < |t| :: IsBase32(t[i])
  }

  /** The two forms of a content identifier. */
  lemma CidExactly(s: string)
    ensures IsCid(s) <==>
            || (exists t :: s == "Qm" + t && |t| == 44 && AllBase58(t))
            || (exists t :: s == "b" + t && |t| >= 58 && AllBase32(t))
  {
    if "Qm" <= s {
      assert s == "Qm" + s[2..];
    }
    if "b" <= s {
      assert s == "b" + s[1..];
    }
  }

  lemma {:induction false} SegmentsConcat(p: seq<string>, q: seq<string>)
    ensures Segments(p + q) == Segments(p) + Segments(q)
  {
    if p == [] {
      assert p + q == q;
    } else {
      assert (p + q)[0] == p[0] && (p + q)[1..] == p[1..] + q;
      SegmentsConcat(p[1..], q);
    }
  }

  /** A path without empty pieces is its own list of segments. */
  lemma {:induction false} SegmentsWhole(p: seq<string>)
    requires forall i | 0 <= i < |p| :: p[i] != ""
    ensures Segments(p) == p
  {
    if p != [] {
      SegmentsWhole(p[1..]);
    }
  }

  /** An empty piece does not matter anywhere. */
  lemma EmptyPiece(p: seq<string>, q: seq<string>)
    ensures Segments(p + [""] + q) == Segments(p + q)
  {
    SegmentsConcat(p, [""]);
    SegmentsConcat(p + [""], q);
    SegmentsConcat(p, q);
    assert Segments([""]) == [];
  }

  /** A package file is `/ipfs/<cid>/<name>` or deeper, over http or https, whatever the host. */
  lemma PackageExactly(scheme: string, host: string, path: seq<string>)
    requires forall i | 0 <= i < |path| :: path[i] != ""
    ensures IsPackageUrl(Url(scheme, host, path)) <==>
            && (scheme == "http:" || scheme == "https:")
            && exists cid, file, rest :: path == ["ipfs", cid, file] + rest && IsCid(cid)
  {
    SegmentsWhole(path);
    if |path| >= 3 {
      assert path == [path[0], path[1], path[2]] + path[3..];
    }
  }

  // ---------------------------------------------------------------- contents

  type Body = seq<char>

  /** What the index key holds. Items that are not strings are None; anything but an array is Damaged. */
  datatype IndexFile = Damaged | Items(items: seq<Option<Url>>)

  datatype Stored = Package(body: Body) | Index(file: IndexFile)

  type Contents = map<Url, Stored>

  function Strings(items: seq<Option<Url>>): seq<Url> {
    if items == [] then []
    else (if items[0].Some? then [items[0].value] else []) + Strings(items[1..])
  }

  function Written(urls: seq<Url>): Stored {
    Index(Items(seq(|urls|, i requires 0 <= i < |urls| => Some(urls[i]))))
  }

  /** The index as read back: empty when missing or damaged. */
  function ReadIndex(c: Contents): seq<Url> {
    if INDEX_URL in c && c[INDEX_URL].Index? && c[INDEX_URL].file.Items? then Strings(c[INDEX_URL].file.items)
    else []
  }

  lemma {:induction false} StringsOfSome(urls: seq<Url>, items: seq<Option<Url>>)
    requires |items| == |urls| && forall i | 0 <= i < |urls| :: items[i] == Some(urls[i])
    ensures Strings(items) == urls
  {
    if urls != [] {
      StringsOfSome(urls[1..], items[1..]);
    }
  }

  /** Reading keeps the strings of a list, in order, and drops everything else. */
  lemma {:induction false} StringsConcat(a: seq<Option<Url>>, b: seq<Option<Url>>)
    ensures Strings(a + b) == Strings(a) + Strings(b)
  {
    if a == [] {
      assert a + b == b;
    } else {
      var ab := a + b;
      assert ab[0] == a[0] && ab[1..] == a[1..] + b;
      StringsConcat(a[1..], b);
    }
  }

  lemma StringsOne(item: Option<Url>)
    ensures Strings([item]) == if item.Some? then [item.value] else []
  {
    assert [item][1..] == [];
    assert Strings([]) == [];
  }

  /** What is written is what is read. */
  lemma ReadsBack(c: Contents, urls: seq<Url>)
    ensures ReadIndex(c[INDEX_URL := Written(urls)]) == urls
  {
    StringsOfSome(urls, Written(urls).file.items);
  }

  datatype Response = Response(ok: bool, opaque_: bool, body: Body)

  datatype Answer = Cached(stored: Stored) | Live(response: Response) | Rejected

  predicate Storable(r: Response) {
    r.ok && !r.opaque_
  }

  /** The contents after one recorded use. */
  function AfterUse(c: Contents, url: Url): Contents {
    var t := Touch(ReadIndex(c), url, MAX_ENTRIES);
    (c - Elements(t.evict))[INDEX_URL := Written(t.index)]
  }

  /** A request and what the network would say to it; None when the fetch rejects. */
  datatype Request = Request(url: Url, network: Option<Response>)

  predicate Uses(c: Contents, q: Request) {
    q.url in c || (q.network.Some? && Storable(q.network.value))
  }

  function AnswerTo(c: Contents, q: Request): Answer {
    if q.url in c then Cached(c[q.url]) else if q.network.Some? then Live(q.network.value) else Rejected
  }

  function AfterServe(c: Contents, q: Request): Contents {
    if q.url in c then AfterUse(c, q.url)
    else if Uses(c, q) then AfterUse(c[q.url := Package(q.network.value.body)], q.url)
    else c
  }

  /** Cache first, then the network: what is answered, said without the functions above. */
  lemma AnswerExactly(c: Contents, q: Request)
    ensures q.url in c ==> AnswerTo(c, q) == Cached(c[q.url])
    ensures q.url !in c && q.network == None ==> AnswerTo(c, q) == Rejected
    ensures forall r | q.url !in c && q.network == Some(r) :: AnswerTo(c, q) == Live(r)
  {
  }

  /**
   * What a request leaves behind: nothing changes on a miss unless the response is ok and readable;
   * otherwise the URL is listed first, it is stored, as it was or as fetched, and nothing else is added.
   */
  lemma ServeExactly(c: Contents, q: Request)
    requires q.url != INDEX_URL
    ensures var v, kept := AfterServe(c, q), q.network.Some? && q.network.value.ok && !q.network.value.opaque_;
            && (q.url !in c && !kept ==> v == c)
            && (q.url in c || kept ==>
                  && ReadIndex(v) != [] && ReadIndex(v)[0] == q.url && q.url in v
                  && v[q.url] == (if q.url in c then c[q.url] else Package(q.network.value.body))
                  && forall u | u in v && u != INDEX_URL && u != q.url :: u in c && v[u] == c[u])
  {
    if q.url in c || Uses(c, q) {
      var now := if q.url in c then c else c[q.url := Package(q.network.value.body)];
      UsedIsFirst(now, q.url);
    }
  }

  lemma UsedIsFirst(now: Contents, url: Url)
    requires url in now && url != INDEX_URL
    ensures var v := AfterUse(now, url);
            && ReadIndex(v) != [] && ReadIndex(v)[0] == url && url in v && v[url] == now[url]
            && forall u | u in v && u != INDEX_URL :: u in now && v[u] == now[u]
  {
    var r := ReadIndex(now);
    var t := Touch(r, url, MAX_ENTRIES);
    UseKeys(now, url, t.evict);
    var next := [url] + Without(r, url);
    assert t.evict == Drop(next, Limit(MAX_ENTRIES));
    assert forall i | 0 < i < |next| :: next[i] in Without(r, url);
    assert url !in t.evict;
  }

  /** The worker's cache, changed in place. */
  class Cache {
    var entries: Contents

    constructor ()
      ensures entries == map[]
    {
      entries := map[];
    }

    /** Delete what the touched index pushes out, then put the index. */
    method RecordUse(url: Url)
      modifies this
      ensures entries == AfterUse(old(entries), url)
    {
      var t := Touch(ReadIndex(entries), url, MAX_ENTRIES);
      for i := 0 to |t.evict|
        invariant entries == old(entries) - Elements(t.evict[..i])
      {
        entries := entries - {t.evict[i]};
        assert Elements(t.evict[..i + 1]) == Elements(t.evict[..i]) + {t.evict[i]};
      }
      assert t.evict[..|t.evict|] == t.evict;
      entries := entries[INDEX_URL := Written(t.index)];
    }

    /** Cache-first for one package file. */
    method Serve(q: Request) returns (a: Answer)
      modifies this
      ensures a == AnswerTo(old(entries), q)
      ensures entries == AfterServe(old(entries), q)
    {
      if q.url in entries {
        a := Cached(entries[q.url]);
        RecordUse(q.url);
        return;
      }
      if q.network == None {
        return Rejected;
      }
      var response := q.network.value;
      if response.ok && !response.opaque_ {
        entries := entries[q.url := Package(response.body)];
        RecordUse(q.url);
      }
      a := Live(response);
    }
  }

  // ---------------------------------------------------------------- agreement over whole runs

  function AfterAll(qs: seq<Request>): Contents {
    if qs == [] then map[] else AfterServe(AfterAll(qs[..|qs| - 1]), qs[|qs| - 1])
  }

  /** The uses a run records, oldest first. */
  function UsesOf(qs: seq<Request>): seq<Url> {
    if qs == [] then []
    else
      var before, q := qs[..|qs| - 1], qs[|qs| - 1];
      UsesOf(before) + if Uses(AfterAll(before), q) then [q.url] else []
  }

  /** The stored index is the bounded recency list, and what is stored is what it lists. */
  ghost predicate Agrees(c: Contents, uses: seq<Url>) {
    && ReadIndex(c) == Run(uses, MAX_ENTRIES)
    && c.Keys - {INDEX_URL} == Elements(Run(uses, MAX_ENTRIES))
    && INDEX_URL !in uses
    && forall u | u in c && u != INDEX_URL :: c[u].Package?
  }

  lemma RunFacts(uses: seq<Url>)
    ensures NoDup(Run(uses, MAX_ENTRIES)) && |Run(uses, MAX_ENTRIES)| <= MAX_ENTRIES
    ensures forall u | u in Run(uses, MAX_ENTRIES) :: u in uses
  {
    RunIsRecency(uses, MAX_ENTRIES);
    RecencyMeaning(uses);
  }

  /**
   * From any index without repetition and within the ceiling, one use pushes out at most one URL, and
   * never one that stays; nothing below the ceiling.
   */
  lemma EvictsAtMostOne(r: seq<Url>, url: Url)
    requires NoDup(r) && |r| <= MAX_ENTRIES
    ensures var t := Touch(r, url, MAX_ENTRIES);
            && NoDup(t.index) && |t.evict| <= 1 && Elements(t.evict) !! Elements(t.index)
            && Elements(t.index) + Elements(t.evict) == Elements(r) + {url}
            && (t.evict != [] <==> |r| == MAX_ENTRIES && url !in r)
  {
    WithoutNoDup(r, url);
    WithoutSize(r, url);
    var next := [url] + Without(r, url);
    assert NoDup(next);
    var t := Touch(r, url, MAX_ENTRIES);
    assert next == t.index + t.evict;
    assert forall u :: u in next <==> u in r || u == url;
    assert forall u :: u in next <==> u in t.index || u in t.evict;
    assert forall i, j | 0 <= i < |t.index| && 0 <= j < |t.evict| :: t.index[i] != t.evict[j];
  }

  lemma WithoutSize(r: seq<Url>, url: Url)
    requires NoDup(r)
    ensures |Without(r, url)| == |r| - if url in r then 1 else 0
  {
    WithoutNoDup(r, url);
    NoDupSize(r);
    NoDupSize(Without(r, url));
    assert Elements(Without(r, url)) == Elements(r) - {url};
  }

  lemma UseKeys(now: Contents, url: Url, evict: seq<Url>)
    requires evict == Touch(ReadIndex(now), url, MAX_ENTRIES).evict
    ensures AfterUse(now, url).Keys == now.Keys - Elements(evict) + {INDEX_URL}
    ensures ReadIndex(AfterUse(now, url)) == Touch(ReadIndex(now), url, MAX_ENTRIES).index
  {
    ReadsBack(now - Elements(evict), Touch(ReadIndex(now), url, MAX_ENTRIES).index);
  }

  lemma KeysLeft(keys: set<Url>, listed: set<Url>, kept: set<Url>, evicted: set<Url>)
    requires keys - {INDEX_URL} == listed && kept + evicted == listed && kept !! evicted && INDEX_URL !in listed
    ensures keys - evicted + {INDEX_URL} - {INDEX_URL} == kept
  {
  }

  lemma UseKeepsAgreement(c: Contents, uses: seq<Url>, url: Url, now: Contents)
    requires Agrees(c, uses) && url != INDEX_URL
    requires url in now && now.Keys == c.Keys + {url} && ReadIndex(now) == ReadIndex(c)
    requires forall u | u in now && u != INDEX_URL :: now[u].Package?
    ensures Agrees(AfterUse(now, url), uses + [url])
  {
    var r := Run(uses, MAX_ENTRIES);
    var t := Touch(r, url, MAX_ENTRIES);
    assert (uses + [url])[..|uses|] == uses;
    assert Run(uses + [url], MAX_ENTRIES) == t.index;
    RunFacts(uses);
    EvictsAtMostOne(r, url);
    UseKeys(now, url, t.evict);
    assert now.Keys - {INDEX_URL} == Elements(r) + {url} by {
      assert now.Keys - {INDEX_URL} == (c.Keys - {INDEX_URL}) + {url};
    }
    KeysLeft(now.Keys, Elements(r) + {url}, Elements(t.index), Elements(t.evict));
  }

  /** Cache and index agree after every fault-free sequential run from the empty cache. */
  lemma {:induction false} SequentialAgreement(qs: seq<Request>)
    requires forall q | q in qs :: IsPackageUrl(q.url)
    ensures Agrees(AfterAll(qs), UsesOf(qs))
  {
    if qs == [] {
    } else {
      var before, q := qs[..|qs| - 1], qs[|qs| - 1];
      SequentialAgreement(before);
      IndexIsNoPackage();
      var c := AfterAll(before);
      if q.url in c {
        UseKeepsAgreement(c, UsesOf(before), q.url, c);
      } else if Uses(c, q) {
        UseKeepsAgreement(c, UsesOf(before), q.url, c[q.url := Package(q.network.value.body)]);
      } else {
        assert UsesOf(qs) == UsesOf(before);
      }
    }
  }

  /** At most 60 packages are ever stored. */
  lemma SequentialBound(qs: seq<Request>)
    requires forall p | p in qs :: IsPackageUrl(p.url)
    ensures |AfterAll(qs).Keys - {INDEX_URL}| <= 60
  {
    SequentialAgreement(qs);
    RunFacts(UsesOf(qs));
    NoDupSize(Run(UsesOf(qs), MAX_ENTRIES));
  }

  /** The URL was used, and fewer than 60 distinct URLs have been used since its last use. */
  ghost predicate RecentlyUsed(uses: seq<Url>, u: Url) {
    u in uses && |Elements(uses[LastUse(uses, u) + 1..])| < 60
  }

  lemma IndexedExactly(uses: seq<Url>, u: Url)
    ensures u in Run(uses, MAX_ENTRIES) <==> RecentlyUsed(uses, u)
  {
    HitExactly(uses, u, MAX_ENTRIES);
  }

  /** A request is answered from the cache exactly when its URL was recently used. */
  lemma SequentialHits(qs: seq<Request>, q: Request)
    requires IsPackageUrl(q.url) && forall p | p in qs :: IsPackageUrl(p.url)
    ensures AnswerTo(AfterAll(qs), q).Cached? <==> RecentlyUsed(UsesOf(qs), q.url)
  {
    SequentialAgreement(qs);
    IndexIsNoPackage();
    AgreesOnKeys(AfterAll(qs), UsesOf(qs), q.url);
    IndexedExactly(UsesOf(qs), q.url);
  }

  lemma AgreesOnKeys(c: Contents, uses: seq<Url>, u: Url)
    requires Agrees(c, uses) && u != INDEX_URL
    ensures u in c <==> u in Run(uses, MAX_ENTRIES)
  {
    assert u in c <==> u in c.Keys - {INDEX_URL};
  }
}
