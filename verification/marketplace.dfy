/** The template marketplace canister: an in-memory store of code templates
    keyed by template id (a `BTreeMap<String, Template>`), with create, read,
    search, rating, download and partial-update operations. The canister's
    clock is a `time` parameter of each update. */
module Marketplace {
  import opened Wrappers
  import opened Text
  import opened Ordered

  /** The largest `u32`. */
  const U32Max: nat := 0xFFFF_FFFF
  const U32Modulus: nat := 0x1_0000_0000

  const IdPrefix := "tpl_"

  /** A template. `downloads` is a `u32` (its bound is a precondition of
      `DownloadTemplate`); `rating` is an `f32`, modelled as an exact real. */
  datatype Template = Template(
    id: string,
    name: string,
    description: string,
    category: string,
    language: string,
    code: string,
    author: string,
    downloads: nat,
    rating: real,
    createdAt: nat,
    updatedAt: nat)

  type Store = map<string, Template>

  /** A store and the `bool` an update returned. */
  datatype Outcome = Outcome(store: Store, ok: bool)

  /** No rating yet, or a rating on the 1..5 scale. */
  predicate RatingValid(rating: real) {
    rating == 0.0 || 1.0 <= rating <= 5.0
  }

  /** What every operation keeps: each template is stored under its own id,
      and its rating is valid. */
  predicate Consistent(s: Store) {
    forall id :: id in s ==> s[id].id == id && RatingValid(s[id].rating)
  }

  // ----- create / get / list -----

  /** The fields a caller gives to `create_template`. */
  datatype Draft = Draft(
    name: string,
    description: string,
    category: string,
    language: string,
    code: string,
    author: string)

  datatype Created = Created(store: Store, id: string)

  /** `format!("tpl_{}", time)`. */
  function TemplateId(time: nat): (id: string)
    ensures |id| > |IdPrefix| && id[..|IdPrefix|] == IdPrefix
    ensures forall k :: |IdPrefix| <= k < |id| ==> IsDigit(id[k])
  {
    IdPrefix + NatToString(time)
  }

  /** Templates created at different times get different ids. */
  lemma TemplateIdInjective(t1: nat, t2: nat)
    requires TemplateId(t1) == TemplateId(t2)
    ensures t1 == t2
  {
    assert NatToString(t1) == TemplateId(t1)[|IdPrefix|..];
    assert NatToString(t2) == TemplateId(t2)[|IdPrefix|..];
    NatToStringInjective(t1, t2);
  }

  /** `create_template`: a fresh template under id `tpl_<time>`, with no
      downloads, no rating and both timestamps `time`; the store otherwise
      unchanged. */
  function CreateTemplate(s: Store, d: Draft, time: nat): (r: Created)
    ensures r.id == TemplateId(time)
    ensures r.store.Keys == s.Keys + {r.id}
    ensures r.store[r.id] == Template(r.id, d.name, d.description, d.category, d.language, d.code, d.author, 0, 0.0, time, time)
    ensures forall id :: id in s && id != r.id ==> r.store[id] == s[id]
    ensures Consistent(s) ==> Consistent(r.store)
  {
    var id := TemplateId(time);
    var t := Template(id, d.name, d.description, d.category, d.language, d.code, d.author, 0, 0.0, time, time);
    Created(s[id := t], id)
  }

  /** `get_template`. */
  function GetTemplate(s: Store, id: string): (r: Option<Template>)
    ensures r.Some? <==> id in s
    ensures r.Some? ==> r.value == s[id]
  {
    if id in s then Some(s[id]) else None
  }

  /** The ids of a sequence of templates increase strictly: key order, and no
      template twice. */
  ghost predicate IdsIncreasing(ts: seq<Template>) {
    forall i, j :: 0 <= i < j < |ts| ==> StringLess(ts[i].id, ts[j].id)
  }

  /** The ids of a sequence of templates. */
  function Ids(ts: seq<Template>): (ids: seq<string>)
    ensures |ids| == |ts|
    ensures forall i :: 0 <= i < |ts| ==> ids[i] == ts[i].id
  {
    seq(|ts|, i requires 0 <= i < |ts| => ts[i].id)
  }

  /** A set of template ids in ascending order, the `BTreeMap` iteration order. */
  function SortedIds(ids: set<string>): (r: seq<string>)
    ensures |r| == |ids|
    ensures forall id :: id in r <==> id in ids
    ensures Increasing(r, StringLess)
    ensures forall i, j :: 0 <= i < j < |r| ==> r[i] != r[j]
  {
    StringOrder();
    SortedKeys(ids, StringLess)
  }

  /** `list_templates`: every stored template, in ascending id order. */
  function ListTemplates(s: Store): (r: seq<Template>)
    ensures |r| == |s|
    ensures forall t :: t in r <==> t in s.Values
    ensures Consistent(s) ==> IdsIncreasing(r)
  {
    StringOrder();
    var ids := SortedIds(s.Keys);
    assert ids == SortedKeys(s.Keys, StringLess);
    var r := Values(s, StringLess);
    assert Consistent(s) ==> IdsIncreasing(r) by {
      if Consistent(s) {
        forall i, j | 0 <= i < j < |r|
          ensures StringLess(r[i].id, r[j].id)
        {
          assert r[i].id == ids[i] && r[j].id == ids[j];
        }
      }
    }
    r
  }

  /** The `i`-th listed template is the one under the `i`-th smallest id. */
  lemma ListedAt(s: Store, i: nat)
    requires i < |s|
    ensures ListTemplates(s)[i] == s[SortedIds(s.Keys)[i]]
  {
    StringOrder();
    assert SortedIds(s.Keys) == SortedKeys(s.Keys, StringLess);
  }

  /** The listing is the only id-increasing sequence of the stored templates. */
  lemma ListingUnique(s: Store, r: seq<Template>)
    requires Consistent(s)
    requires IdsIncreasing(r)
    requires forall t :: t in r <==> t in s.Values
    ensures r == ListTemplates(s)
  {
    StringOrder();
    var ids := Ids(r);
    forall id
      ensures id in ids <==> id in s.Keys
    {
      if id in ids {
        var i :| 0 <= i < |ids| && ids[i] == id;
        assert r[i] in s.Values;
      }
      if id in s {
        assert s[id] in s.Values;
        var i :| 0 <= i < |r| && r[i] == s[id];
        assert ids[i] == id;
      }
    }
    assert Increasing(ids, StringLess);
    SortedKeysUnique(s.Keys, ids, StringLess);
    var l := ListTemplates(s);
    forall i | 0 <= i < |r|
      ensures r[i] == l[i]
    {
      assert r[i] in s.Values;
    }
  }

  /** Getting a template and finding it in the listing agree. */
  lemma {:induction false} GetIsListed(s: Store, id: string, t: Template)
    requires Consistent(s)
    ensures GetTemplate(s, id) == Some(t) <==> t in ListTemplates(s) && t.id == id
  {
    if t in ListTemplates(s) && t.id == id {
      var k :| k in s && s[k] == t;
      assert s[k].id == k;
    }
  }

  // ----- search -----

  datatype Filters = Filters(
    category: Option<string>,
    language: Option<string>,
    minRating: Option<real>,
    author: Option<string>)

  /** An optional exact-match filter. */
  predicate FieldMatches(want: Option<string>, have: string) {
    want.None? || want.value == have
  }

  /** The text part of `search_templates`: an empty query matches everything,
      otherwise the lowered name, description or code contains the lowered query. */
  predicate QueryMatches(t: Template, query: string) {
    query == []
    || Contains(Lower(t.name), Lower(query))
    || Contains(Lower(t.description), Lower(query))
    || Contains(Lower(t.code), Lower(query))
  }

  /** The filter part of `search_templates`: no filters, or every given one holds. */
  predicate FiltersMatch(t: Template, filters: Option<Filters>) {
    filters.None?
    || (FieldMatches(filters.value.category, t.category)
        && FieldMatches(filters.value.language, t.language)
        && (filters.value.minRating.None? || t.rating >= filters.value.minRating.value)
        && FieldMatches(filters.value.author, t.author))
  }

  predicate Matches(t: Template, query: string, filters: Option<Filters>) {
    QueryMatches(t, query) && FiltersMatch(t, filters)
  }

  /** The templates of `ts` that `keep` accepts, in their order. */
  function Select(ts: seq<Template>, keep: Template -> bool): (r: seq<Template>)
    ensures forall t :: t in r <==> t in ts && keep(t)
    ensures |r| <= |ts|
  {
    if ts == [] then []
    else
      var last := ts[|ts| - 1];
      Select(ts[..|ts| - 1], keep) + (if keep(last) then [last] else [])
  }

  /** Selecting keeps the key order. */
  lemma {:induction false} SelectIncreasing(ts: seq<Template>, keep: Template -> bool)
    requires IdsIncreasing(ts)
    ensures IdsIncreasing(Select(ts, keep))
  {
    if ts != [] {
      var front := ts[..|ts| - 1];
      var last := ts[|ts| - 1];
      assert IdsIncreasing(front);
      SelectIncreasing(front, keep);
      var sf := Select(front, keep);
      forall i | 0 <= i < |sf|
        ensures StringLess(sf[i].id, last.id)
      {
        assert sf[i] in sf;
        var k :| 0 <= k < |front| && front[k] == sf[i];
        assert ts[k] == front[k];
      }
    }
  }

  lemma LastSplit<T>(s: seq<T>)
    requires s != []
    ensures s == s[..|s| - 1] + [s[|s| - 1]]
  {
  }

  /** When `keep` accepts every template, selecting keeps them all. */
  lemma {:induction false} SelectAll(ts: seq<Template>, keep: Template -> bool)
    requires forall i :: 0 <= i < |ts| ==> keep(ts[i])
    ensures Select(ts, keep) == ts
  {
    if ts != [] {
      var front, last := ts[..|ts| - 1], ts[|ts| - 1];
      assert forall i :: 0 <= i < |front| ==> front[i] == ts[i];
      SelectAll(front, keep);
      assert keep(last);
      assert Select(ts, keep) == front + [last];
      LastSplit(ts);
    }
  }

  /** `search_templates`: the matching templates, in ascending id order. */
  function SearchTemplates(s: Store, query: string, filters: Option<Filters>): (r: seq<Template>)
    ensures forall t :: t in r <==> t in s.Values && Matches(t, query, filters)
    ensures Consistent(s) ==> IdsIncreasing(r)
  {
    var all := ListTemplates(s);
    var keep := (t: Template) => Matches(t, query, filters);
    assert Consistent(s) ==> IdsIncreasing(Select(all, keep)) by {
      if Consistent(s) {
        SelectIncreasing(all, keep);
      }
    }
    Select(all, keep)
  }

  /** An empty query without filters returns the whole listing. */
  lemma EmptySearchListsAll(s: Store)
    ensures SearchTemplates(s, "", None) == ListTemplates(s)
  {
    SelectAll(ListTemplates(s), (t: Template) => Matches(t, "", None));
  }

  /** The templates of `s` that match. */
  function Matching(s: Store, query: string, filters: Option<Filters>): (m: Store)
    ensures m.Keys <= s.Keys
    ensures forall id :: id in m <==> id in s && Matches(s[id], query, filters)
    ensures forall id :: id in m ==> m[id] == s[id]
  {
    map id | id in s && Matches(s[id], query, filters) :: s[id]
  }

  /** Searching is listing the matching part of the store: the result is
      the subsequence of `list_templates` that matches. */
  lemma SearchIsListOfMatching(s: Store, query: string, filters: Option<Filters>)
    requires Consistent(s)
    ensures SearchTemplates(s, query, filters) == ListTemplates(Matching(s, query, filters))
  {
    var m := Matching(s, query, filters);
    var r := SearchTemplates(s, query, filters);
    forall t
      ensures t in r <==> t in m.Values
    {
      if t in r {
        var id :| id in s && s[id] == t;
        assert m[id] == t;
      }
    }
    ListingUnique(m, r);
  }

  // ----- categories and languages -----

  /** The distinct values of one field over the stored templates. The canister
      collects them through a `HashSet`, whose iteration order is unspecified;
      this model lists them in ascending order. */
  function Distinct(s: Store, field: Template -> string): (r: seq<string>)
    ensures forall v :: v in r <==> exists id :: id in s && field(s[id]) == v
    ensures forall i, j :: 0 <= i < j < |r| ==> r[i] != r[j]
  {
    StringOrder();
    SortedKeys(set id | id in s :: field(s[id]), StringLess)
  }

  /** `get_categories`. */
  function GetCategories(s: Store): (r: seq<string>)
    ensures forall c :: c in r <==> exists id :: id in s && s[id].category == c
    ensures forall i, j :: 0 <= i < j < |r| ==> r[i] != r[j]
  {
    Distinct(s, (t: Template) => t.category)
  }

  /** `get_languages`. */
  function GetLanguages(s: Store): (r: seq<string>)
    ensures forall l :: l in r <==> exists id :: id in s && s[id].language == l
    ensures forall i, j :: 0 <= i < j < |r| ==> r[i] != r[j]
  {
    Distinct(s, (t: Template) => t.language)
  }

  // ----- rating, downloads, updates -----

  /** The rating after one more vote: the vote itself for an unrated
      template, otherwise the mean of the old rating and the vote. */
  function Rated(current: real, vote: real): (r: real)
    requires 1.0 <= vote <= 5.0
    ensures RatingValid(current) ==> 1.0 <= r <= 5.0
    ensures current == 0.0 ==> r == vote
    ensures current != 0.0 ==> (current <= r <= vote || vote <= r <= current)
  {
    if current == 0.0 then vote else (current + vote) / 2.0
  }

  /** `rate_template`: a vote outside 1..5 or an unknown id is refused and
      changes nothing; otherwise only that template's rating and update time
      change. */
  function RateTemplate(s: Store, id: string, vote: real, time: nat): (r: Outcome)
    ensures r.ok <==> 1.0 <= vote <= 5.0 && id in s
    ensures !r.ok ==> r.store == s
    ensures r.ok ==> r.store.Keys == s.Keys
    ensures r.ok ==> r.store[id].(rating := s[id].rating, updatedAt := s[id].updatedAt) == s[id]
    ensures r.ok ==> r.store[id].updatedAt == time
    ensures r.ok ==> r.store[id].rating == Rated(s[id].rating, vote)
    ensures r.ok && RatingValid(s[id].rating) ==> 1.0 <= r.store[id].rating <= 5.0
    ensures forall k :: k in s && k != id ==> k in r.store && r.store[k] == s[k]
    ensures Consistent(s) ==> Consistent(r.store)
  {
    if vote < 1.0 || vote > 5.0 then Outcome(s, false)
    else if id !in s then Outcome(s, false)
    else
      var t := s[id];
      Outcome(s[id := t.(rating := Rated(t.rating, vote), updatedAt := time)], true)
  }

  /** A refused vote leaves the store as it was. */
  lemma RatingOutOfRangeRefused(s: Store, id: string, vote: real, time: nat)
    requires vote < 1.0 || vote > 5.0
    ensures RateTemplate(s, id, vote, time) == Outcome(s, false)
  {
  }

  /** `download_template`: one more download and a new update time for a
      stored template, nothing else changes; an unknown id changes nothing.
      The `u32` counter must not be at its maximum. */
  function DownloadTemplate(s: Store, id: string, time: nat): (r: Outcome)
    requires id in s ==> s[id].downloads < U32Max
    ensures r.ok <==> id in s
    ensures !r.ok ==> r.store == s
    ensures r.ok ==> r.store.Keys == s.Keys
    ensures r.ok ==> r.store[id].downloads == s[id].downloads + 1 && r.store[id].updatedAt == time
    ensures r.ok ==> r.store[id].(downloads := s[id].downloads, updatedAt := s[id].updatedAt) == s[id]
    ensures forall k :: k in s && k != id ==> k in r.store && r.store[k] == s[k]
    ensures Consistent(s) ==> Consistent(r.store)
  {
    if id in s then
      var t := s[id];
      Outcome(s[id := t.(downloads := t.downloads + 1, updatedAt := time)], true)
    else
      Outcome(s, false)
  }

  /** The optional fields of `update_template`. */
  datatype Patch = Patch(
    name: Option<string>,
    description: Option<string>,
    category: Option<string>,
    language: Option<string>,
    code: Option<string>)

  /** One field after a patch: the given value, or the old one. */
  predicate Patches(given: Option<string>, before: string, after: string) {
    if given.Some? then after == given.value else after == before
  }

  /** `update_template`: for a stored template each given field is replaced,
      every other field is kept except the update time; id, author, downloads,
      rating and creation time never change. An unknown id changes nothing. */
  function UpdateTemplate(s: Store, id: string, p: Patch, time: nat): (r: Outcome)
    ensures r.ok <==> id in s
    ensures !r.ok ==> r.store == s
    ensures r.ok ==> r.store.Keys == s.Keys
    ensures r.ok ==>
      var before, after := s[id], r.store[id];
      Patches(p.name, before.name, after.name)
      && Patches(p.description, before.description, after.description)
      && Patches(p.category, before.category, after.category)
      && Patches(p.language, before.language, after.language)
      && Patches(p.code, before.code, after.code)
      && after.id == before.id && after.author == before.author
      && after.downloads == before.downloads && after.rating == before.rating
      && after.createdAt == before.createdAt && after.updatedAt == time
    ensures forall k :: k in s && k != id ==> k in r.store && r.store[k] == s[k]
    ensures Consistent(s) ==> Consistent(r.store)
  {
    if id in s then
      var t := s[id];
      var t' := t.(
        name := p.name.GetOr(t.name),
        description := p.description.GetOr(t.description),
        category := p.category.GetOr(t.category),
        language := p.language.GetOr(t.language),
        code := p.code.GetOr(t.code),
        updatedAt := time);
      Outcome(s[id := t'], true)
    else
      Outcome(s, false)
  }

  /** Applying the same patch again only moves the update time. */
  lemma UpdateIdempotent(s: Store, id: string, p: Patch, t1: nat, t2: nat)
    ensures UpdateTemplate(UpdateTemplate(s, id, p, t1).store, id, p, t2) == UpdateTemplate(s, id, p, t2)
  {
    if id in s {
      var once := UpdateTemplate(s, id, p, t2).store;
      var twice := UpdateTemplate(UpdateTemplate(s, id, p, t1).store, id, p, t2).store;
      assert twice[id] == once[id];
    }
  }

  // ----- statistics -----

  /** The download counts of a listing, summed. */
  function DownloadSum(ts: seq<Template>): nat {
    if ts == [] then 0 else DownloadSum(ts[..|ts| - 1]) + ts[|ts| - 1].downloads
  }

  /** The count and download total of `get_template_stats` (its average
      rating is floating point and left out). */
  datatype Stats = Stats(totalTemplates: nat, totalDownloads: nat)

  /** `get_template_stats`: the number of templates as a `u32` (the `as u32`
      cast truncates) and the total of their downloads, which must fit a `u32`. */
  function TemplateStats(s: Store): (r: Stats)
    requires DownloadSum(ListTemplates(s)) <= U32Max
    ensures r.totalTemplates == AsU32(|s|)
    ensures r.totalTemplates < U32Modulus
    ensures |s| < U32Modulus ==> r.totalTemplates == |s|
    ensures r.totalDownloads == DownloadSum(ListTemplates(s)) <= U32Max
    ensures s == map[] ==> r == Stats(0, 0)
    ensures forall id :: id in s ==> s[id].downloads <= r.totalDownloads
  {
    var ts := ListTemplates(s);
    forall id | id in s
      ensures s[id].downloads <= DownloadSum(ts)
    {
      assert s[id] in s.Values;
      var i :| 0 <= i < |ts| && ts[i] == s[id];
      DownloadSumCovers(ts, i);
    }
    Stats(AsU32(|s|), DownloadSum(ts))
  }

  /** Every template's downloads are part of the total. */
  lemma {:induction false} DownloadSumCovers(ts: seq<Template>, i: nat)
    requires i < |ts|
    ensures ts[i].downloads <= DownloadSum(ts)
  {
    if i < |ts| - 1 {
      DownloadSumCovers(ts[..|ts| - 1], i);
    }
  }

  /** Downloads summed over two listings, one after the other. */
  lemma {:induction false} DownloadSumAppend(xs: seq<Template>, ys: seq<Template>)
    ensures DownloadSum(xs + ys) == DownloadSum(xs) + DownloadSum(ys)
    decreases |ys|
  {
    if ys == [] {
      assert xs + ys == xs;
    } else {
      var n := |ys| - 1;
      assert (xs + ys)[..|xs + ys| - 1] == xs + ys[..n];
      DownloadSumAppend(xs, ys[..n]);
    }
  }

  /** Where a new id goes in an id-increasing listing: after the smaller
      ids and before the larger ones. */
  lemma {:induction false} InsertionPoint(l: seq<Template>, id: string) returns (p: nat)
    requires StrictOrder(StringLess)
    requires IdsIncreasing(l)
    requires forall i :: 0 <= i < |l| ==> l[i].id != id
    ensures p <= |l|
    ensures forall i :: 0 <= i < p ==> StringLess(l[i].id, id)
    ensures forall i :: p <= i < |l| ==> StringLess(id, l[i].id)
    decreases |l|
  {
    if l == [] {
      p := 0;
    } else {
      var n := |l| - 1;
      var q := InsertionPoint(l[..n], id);
      if StringLess(l[n].id, id) {
        p := |l|;
        forall i | 0 <= i < n
          ensures StringLess(l[i].id, id)
        {
          assert Chain(StringLess, l[i].id, l[n].id, id);
        }
      } else {
        p := q;
      }
    }
  }

  /** The listing split where an id not yet stored would go: the smaller
      ids before, the larger ones after. */
  lemma NewIdSplit(s: Store, id: string) returns (a: seq<Template>, b: seq<Template>)
    requires Consistent(s) && id !in s
    ensures a + b == ListTemplates(s)
    ensures forall i :: 0 <= i < |a| ==> StringLess(a[i].id, id)
    ensures forall i :: 0 <= i < |b| ==> StringLess(id, b[i].id)
  {
    var p := NewIdPoint(s, id);
    a, b := SplitAround(ListTemplates(s), p, id);
  }

  /** Where an id not yet stored goes in the listing. */
  lemma NewIdPoint(s: Store, id: string) returns (p: nat)
    requires Consistent(s) && id !in s
    ensures var l := ListTemplates(s);
      && p <= |l|
      && (forall i :: 0 <= i < p ==> StringLess(l[i].id, id))
      && (forall i :: p <= i < |l| ==> StringLess(id, l[i].id))
  {
    StringOrder();
    var l := ListTemplates(s);
    forall i | 0 <= i < |l|
      ensures l[i].id != id
    {
      assert l[i] in s.Values;
    }
    p := InsertionPoint(l, id);
  }

  /** A listing cut at the insertion point of `id`. */
  lemma SplitAround(l: seq<Template>, p: nat, id: string) returns (a: seq<Template>, b: seq<Template>)
    requires p <= |l|
    requires forall i :: 0 <= i < p ==> StringLess(l[i].id, id)
    requires forall i :: p <= i < |l| ==> StringLess(id, l[i].id)
    ensures a + b == l
    ensures forall i :: 0 <= i < |a| ==> StringLess(a[i].id, id)
    ensures forall i :: 0 <= i < |b| ==> StringLess(id, b[i].id)
  {
    a, b := l[..p], l[p..];
    assert a + b == l;
    assert forall i :: 0 <= i < |b| ==> b[i] == l[p + i];
  }

  /** A template put between the smaller and the larger ids keeps the ids
      increasing. */
  lemma SpliceIncreasing(a: seq<Template>, b: seq<Template>, t: Template)
    requires StrictOrder(StringLess) && IdsIncreasing(a + b)
    requires forall i :: 0 <= i < |a| ==> StringLess(a[i].id, t.id)
    requires forall i :: 0 <= i < |b| ==> StringLess(t.id, b[i].id)
    ensures IdsIncreasing(a + [t] + b)
  {
    var l, r := a + b, a + [t] + b;
    forall i, j | 0 <= i < j < |r|
      ensures StringLess(r[i].id, r[j].id)
    {
      if j < |a| {
        assert r[i] == l[i] && r[j] == l[j];
      } else if |a| < i {
        assert r[i] == l[i - 1] && r[j] == l[j - 1];
      } else if i < |a| && |a| < j {
        assert Chain(StringLess, r[i].id, t.id, r[j].id);
      }
    }
  }

  /** A template put into a listing of a store lists the store with the
      template added under its (new) id. */
  lemma SpliceMembers(s: Store, a: seq<Template>, b: seq<Template>, t: Template)
    requires t.id !in s
    requires forall x :: x in a + b <==> x in s.Values
    ensures forall x :: x in a + [t] + b <==> x in s[t.id := t].Values
  {
    var s' := s[t.id := t];
    forall x
      ensures x in a + [t] + b <==> x in s'.Values
    {
      assert x in a + [t] + b <==> x in a || x == t || x in b;
      assert x in a + b <==> x in a || x in b;
      if x in s'.Values {
        var k :| k in s' && s'[k] == x;
        assert k != t.id ==> s[k] in s.Values;
      }
      if x in s.Values {
        var k :| k in s && s[k] == x;
        assert s'[k] == x;
      }
      assert s'[t.id] == t;
    }
  }

  /** A template put between two parts of a listing adds its downloads to
      the listing's sum. */
  lemma DownloadSumMiddle(a: seq<Template>, b: seq<Template>, t: Template)
    ensures DownloadSum(a + [t] + b) == DownloadSum(a + b) + t.downloads
  {
    assert DownloadSum([t]) == t.downloads by {
      assert [t][..0] == [];
    }
    DownloadSumAppend(a + [t], b);
    DownloadSumAppend(a, [t]);
    DownloadSumAppend(a, b);
  }

  /** Storing a template under a new id adds its downloads to the total:
      together with the empty store's total of 0, the total is the sum of
      the downloads of all stored templates. */
  lemma DownloadSumInsert(s: Store, t: Template)
    requires Consistent(s) && t.id !in s && RatingValid(t.rating)
    ensures DownloadSum(ListTemplates(s[t.id := t])) == DownloadSum(ListTemplates(s)) + t.downloads
  {
    StringOrder();
    var a, b := NewIdSplit(s, t.id);
    SpliceIncreasing(a, b, t);
    SpliceMembers(s, a, b, t);
    ListingUnique(s[t.id := t], a + [t] + b);
    DownloadSumMiddle(a, b, t);
  }

  /** Creating a template under a new id counts one more template and keeps
      the download total, as a new template has no downloads. */
  lemma CreateKeepsDownloads(s: Store, d: Draft, time: nat)
    requires Consistent(s) && TemplateId(time) !in s
    ensures var s' := CreateTemplate(s, d, time).store;
      && |s'| == |s| + 1
      && DownloadSum(ListTemplates(s')) == DownloadSum(ListTemplates(s))
  {
    var c := CreateTemplate(s, d, time);
    assert c.store == s[c.id := c.store[c.id]];
    DownloadSumInsert(s, c.store[c.id]);
  }

  /** Rust's `as u32` on a count: the low 32 bits. */
  function AsU32(n: nat): (r: nat)
    ensures r < U32Modulus
    ensures n < U32Modulus ==> r == n
    ensures (n - r) % U32Modulus == 0
  {
    n % U32Modulus
  }

  /** Two listings that differ only in one template's downloads, by one. */
  lemma {:induction false} DownloadSumBump(xs: seq<Template>, ys: seq<Template>, i: nat)
    requires |xs| == |ys| && i < |xs|
    requires ys[i].downloads == xs[i].downloads + 1
    requires forall k :: 0 <= k < |xs| && k != i ==> ys[k].downloads == xs[k].downloads
    ensures DownloadSum(ys) == DownloadSum(xs) + 1
  {
    var n := |xs| - 1;
    if i < n {
      DownloadSumBump(xs[..n], ys[..n], i);
    } else {
      DownloadSumSame(xs[..n], ys[..n]);
    }
  }

  lemma {:induction false} DownloadSumSame(xs: seq<Template>, ys: seq<Template>)
    requires |xs| == |ys|
    requires forall k :: 0 <= k < |xs| ==> ys[k].downloads == xs[k].downloads
    ensures DownloadSum(ys) == DownloadSum(xs)
  {
    if xs != [] {
      DownloadSumSame(xs[..|xs| - 1], ys[..|ys| - 1]);
    }
  }

  /** Two stores with the same ids whose download counts differ by one at
      `id` only have download totals that differ by one. */
  lemma OneMoreDownload(s: Store, s': Store, id: string)
    requires s'.Keys == s.Keys && id in s
    requires s'[id].downloads == s[id].downloads + 1
    requires forall k :: k in s && k != id ==> s'[k].downloads == s[k].downloads
    ensures DownloadSum(ListTemplates(s')) == DownloadSum(ListTemplates(s)) + 1
  {
    var ids := SortedIds(s.Keys);
    var i :| 0 <= i < |ids| && ids[i] == id;
    var l, l' := ListTemplates(s), ListTemplates(s');
    forall k | 0 <= k < |l| && k != i
      ensures l'[k].downloads == l[k].downloads
    {
      assert ids[k] != id;
      ListedAt(s, k);
      ListedAt(s', k);
    }
    ListedAt(s, i);
    ListedAt(s', i);
    DownloadSumBump(l, l', i);
  }

  /** A successful download raises the statistics' download total by one
      and leaves the template count alone. */
  lemma DownloadCounted(s: Store, id: string, time: nat)
    requires id in s && s[id].downloads < U32Max
    requires DownloadSum(ListTemplates(s)) < U32Max
    ensures var s' := DownloadTemplate(s, id, time).store;
      && DownloadSum(ListTemplates(s')) == DownloadSum(ListTemplates(s)) + 1
      && TemplateStats(s').totalDownloads == TemplateStats(s).totalDownloads + 1
      && TemplateStats(s').totalTemplates == TemplateStats(s).totalTemplates
  {
    OneMoreDownload(s, DownloadTemplate(s, id, time).store, id);
  }

  // ----- sample data -----

  const HelloWorldId := "tpl_hello_world"
  const CounterId := "tpl_counter"
  const NftId := "tpl_nft_basic"
  const SampleIds := {HelloWorldId, CounterId, NftId}
  const SampleAuthor := "ICPad Team"

  /** The samples' fixed names and descriptions. */
  const HelloWorldName := "Hello World Canister"
  const HelloWorldDescription := "A simple hello world canister in Rust for Internet Computer"
  const CounterName := "Counter Canister"
  const CounterDescription := "A simple counter canister with increment/decrement functionality"
  const NftName := "Basic NFT Canister"
  const NftDescription := "A basic NFT implementation with minting and transfer functionality"

  /** The source code carried by the three sample templates. */
  datatype SampleCodes = SampleCodes(helloWorld: string, counter: string, nft: string)

  /** The hello-world canister sample. */
  function HelloWorldSample(time: nat, code: string): Template {
    Template(HelloWorldId,
      HelloWorldName, HelloWorldDescription,
      "Smart Contract", "Rust", code, SampleAuthor, 42, 4.5, time, time)
  }

  /** The counter canister sample. */
  function CounterSample(time: nat, code: string): Template {
    Template(CounterId,
      CounterName, CounterDescription,
      "Smart Contract", "Rust", code, SampleAuthor, 28, 4.2, time, time)
  }

  /** The NFT canister sample. */
  function NftSample(time: nat, code: string): Template {
    Template(NftId,
      NftName, NftDescription,
      "NFT", "Rust", code, SampleAuthor, 15, 4.8, time, time)
  }

  /** `initialize_sample_templates`: inserts (or overwrites) the three
      samples under their ids and leaves every other template alone. The
      samples' source code is a parameter. */
  function InitializeSampleTemplates(s: Store, time: nat, codes: SampleCodes): (r: Outcome)
    ensures r.ok
    ensures forall k :: k in r.store <==> k in s || k in SampleIds
    ensures r.store[HelloWorldId] == HelloWorldSample(time, codes.helloWorld)
    ensures r.store[CounterId] == CounterSample(time, codes.counter)
    ensures r.store[NftId] == NftSample(time, codes.nft)
    ensures forall k :: k in s && k !in SampleIds ==> r.store[k] == s[k]
    ensures Consistent(s) ==> Consistent(r.store)
  {
    Outcome(s[HelloWorldId := HelloWorldSample(time, codes.helloWorld)]
              [CounterId := CounterSample(time, codes.counter)]
              [NftId := NftSample(time, codes.nft)], true)
  }

  /** Initializing twice is initializing once, at the later time. */
  lemma InitializeIdempotent(s: Store, t1: nat, t2: nat, codes: SampleCodes)
    ensures InitializeSampleTemplates(InitializeSampleTemplates(s, t1, codes).store, t2, codes)
         == InitializeSampleTemplates(s, t2, codes)
  {
    var once := InitializeSampleTemplates(s, t2, codes).store;
    var twice := InitializeSampleTemplates(InitializeSampleTemplates(s, t1, codes).store, t2, codes).store;
    assert forall k :: k in once ==> twice[k] == once[k];
  }

  /** A created template never replaces a sample: created ids are numeric
      after the prefix, sample ids are not. */
  lemma CreatedIsNotSample(time: nat)
    ensures TemplateId(time) !in SampleIds
  {
    var id := TemplateId(time);
    assert IsDigit(id[4]);
    assert !IsDigit(HelloWorldId[4]) && !IsDigit(CounterId[4]) && !IsDigit(NftId[4]);
  }
}
