/**
  `generate_response(documents)` (app/generating_processing/generation.py): the
  templated answer built from the retrieved rows. The rows are sorted by id (stably),
  reduced to content, source and page, and the answer is a fixed opening sentence,
  two keyword sentences, a responsibilities header with up to four bullet points, and
  one source line per row. Python's `str.lower()` is supplied by the caller.
 */
module Generation {
  import opened Wrappers
  import opened Text
  import opened Documents

  /** A retrieved row: its `id`, its `content` and its `metadata`, `None` when the key is absent. */
  datatype SearchDoc = SearchDoc(id: int, content: string, metadata: Option<Metadata>)

  /** One entry of `document_info`. */
  datatype DocInfo = DocInfo(content: string, source: MetaValue, page: MetaValue)

  const Prefix: string := "Based on the documents I've reviewed, I found information about an internship agreement. "
  const InternshipSentence: string := "The document appears to be an Internship and Non-Disclosure & Confidentiality Agreement from Themison Aps. "
  const CompanySentence: string := "Themison Aps is located at Fruebjergvej 3, 2100, K\U{F8}benhavn \U{D8}, Denmark. "
  const ResponsibilitiesHeader: string := "The internship responsibilities include: "
  const SourcesHeading: string := "\n\nThis information comes from the following sources:\n"
  const UnknownSource: string := "Unknown source"
  const UnknownPage: string := "Unknown page"

  /** The bullet character U+2022. */
  const Bullet: char := '\U{2022}'
  const MaxBullets: nat := 4
  const MaxPointLength: nat := 100

  const InternshipWords: seq<string> := ["internship"]
  const CompanyWords: seq<string> := ["themison"]
  const ResponsibilityWords: seq<string> := ["responsibilities", "duties"]

  // ---------------------------------------------------------------------------
  // sorted(documents, key=lambda x: x['id'])

  predicate SortedById(s: seq<SearchDoc>) {
    forall i, j :: 0 <= i < j < |s| ==> s[i].id <= s[j].id
  }

  /** Every row of `s` has an id of at least `b`. */
  predicate LowerBound(b: int, s: seq<SearchDoc>) {
    forall i :: 0 <= i < |s| ==> b <= s[i].id
  }

  /** The rows of `s` whose id is `k`, in their order in `s`. */
  function KeyFilter(s: seq<SearchDoc>, k: int): seq<SearchDoc>
  {
    if s == [] then [] else (if s[0].id == k then [s[0]] else []) + KeyFilter(s[1..], k)
  }

  /** Places `x` in front of the first row whose id is not smaller than its own. */
  function InsertById(x: SearchDoc, s: seq<SearchDoc>): seq<SearchDoc>
  {
    if s == [] then [x]
    else if s[0].id < x.id then [s[0]] + InsertById(x, s[1..])
    else [x] + s
  }

  /**
    `sorted(documents, key=lambda x: x['id'])`: an insertion sort that keeps rows with
    equal ids in their input order.
   */
  function SortById(ds: seq<SearchDoc>): seq<SearchDoc>
  {
    if ds == [] then [] else InsertById(ds[0], SortById(ds[1..]))
  }

  lemma KeyFilterCons(a: SearchDoc, t: seq<SearchDoc>, k: int)
    ensures KeyFilter([a] + t, k) == (if a.id == k then [a] else []) + KeyFilter(t, k)
  {
    assert ([a] + t)[1..] == t;
  }

  lemma SortedCons(a: SearchDoc, t: seq<SearchDoc>)
    requires SortedById(t) && LowerBound(a.id, t)
    ensures SortedById([a] + t)
  {
    var s := [a] + t;
    forall i, j | 0 <= i < j < |s|
      ensures s[i].id <= s[j].id
    {
      if i > 0 {
        assert s[i] == t[i - 1] && s[j] == t[j - 1];
      } else {
        assert s[j] == t[j - 1];
      }
    }
  }

  /** Inserting keeps every row and adds `x` once: the result is a permutation of `s` plus `x`. */
  lemma {:induction false} InsertByIdPermutes(x: SearchDoc, s: seq<SearchDoc>)
    ensures multiset(InsertById(x, s)) == multiset(s) + multiset{x}
  {
    if s != [] && s[0].id < x.id {
      InsertByIdPermutes(x, s[1..]);
      assert s == [s[0]] + s[1..];
    }
  }

  /** A lower bound of `s` that `x` also meets is a lower bound of the insertion. */
  lemma {:induction false} InsertByIdLowerBound(x: SearchDoc, s: seq<SearchDoc>, b: int)
    requires LowerBound(b, s) && b <= x.id
    ensures LowerBound(b, InsertById(x, s))
  {
    if s != [] && s[0].id < x.id {
      InsertByIdLowerBound(x, s[1..], b);
    }
  }

  /** Inserting into a sorted sequence gives a sorted sequence. */
  lemma {:induction false} InsertByIdSorted(x: SearchDoc, s: seq<SearchDoc>)
    requires SortedById(s)
    ensures SortedById(InsertById(x, s))
  {
    if s == [] {
    } else if s[0].id < x.id {
      InsertByIdSorted(x, s[1..]);
      InsertByIdLowerBound(x, s[1..], s[0].id);
      SortedCons(s[0], InsertById(x, s[1..]));
    } else {
      SortedCons(x, s);
    }
  }

  /** `x` goes in front of every row of `s` that has its id. */
  lemma {:induction false} InsertByIdKeyFilter(x: SearchDoc, s: seq<SearchDoc>, k: int)
    ensures KeyFilter(InsertById(x, s), k) == (if x.id == k then [x] else []) + KeyFilter(s, k)
  {
    if s == [] {
      KeyFilterCons(x, [], k);
    } else if s[0].id < x.id {
      InsertByIdKeyFilter(x, s[1..], k);
      KeyFilterCons(s[0], InsertById(x, s[1..]), k);
      KeyFilterCons(s[0], s[1..], k);
      assert s == [s[0]] + s[1..];
    } else {
      KeyFilterCons(x, s, k);
    }
  }

  /**
    `sorted` with a key is a stable sort: the result is in ascending id order, is a
    permutation of the input, and the rows sharing an id keep their input order.
   */
  lemma SortByIdSorts(ds: seq<SearchDoc>)
    ensures SortedById(SortById(ds))
    ensures multiset(SortById(ds)) == multiset(ds)
    ensures |SortById(ds)| == |ds|
    ensures forall k :: KeyFilter(SortById(ds), k) == KeyFilter(ds, k)
  {
    SortByIdOrders(ds);
    forall k
      ensures KeyFilter(SortById(ds), k) == KeyFilter(ds, k)
    {
      SortByIdStable(ds, k);
    }
    assert |multiset(SortById(ds))| == |multiset(ds)|;
  }

  /** The sort's result is in ascending id order and a permutation of its input. */
  lemma {:induction false} SortByIdOrders(ds: seq<SearchDoc>)
    ensures SortedById(SortById(ds))
    ensures multiset(SortById(ds)) == multiset(ds)
  {
    if ds != [] {
      SortByIdOrders(ds[1..]);
      InsertByIdSorted(ds[0], SortById(ds[1..]));
      InsertByIdPermutes(ds[0], SortById(ds[1..]));
      assert ds == [ds[0]] + ds[1..];
    }
  }

  /** The rows with id `k` come out of the sort in their input order. */
  lemma {:induction false} SortByIdStable(ds: seq<SearchDoc>, k: int)
    ensures KeyFilter(SortById(ds), k) == KeyFilter(ds, k)
  {
    if ds != [] {
      SortByIdStable(ds[1..], k);
      InsertByIdKeyFilter(ds[0], SortById(ds[1..]), k);
      KeyFilterCons(ds[0], ds[1..], k);
      assert ds == [ds[0]] + ds[1..];
    }
  }

  /** A row whose id is `k` shows up in `KeyFilter(s, k)`, and only rows of `s` with that id do. */
  lemma {:induction false} KeyFilterMembers(s: seq<SearchDoc>, k: int)
    ensures forall e :: e in KeyFilter(s, k) <==> e in s && e.id == k
  {
    if s != [] {
      KeyFilterMembers(s[1..], k);
      KeyFilterCons(s[0], s[1..], k);
      assert s == [s[0]] + s[1..];
    }
  }

  /**
    Sortedness and stability pin the order down: two sorted sequences that agree on the
    rows of every id, in order, are equal. So `SortById` is the only stable sort by id.
   */
  lemma {:induction false} StableSortUnique(a: seq<SearchDoc>, b: seq<SearchDoc>)
    requires SortedById(a) && SortedById(b)
    requires forall k :: KeyFilter(a, k) == KeyFilter(b, k)
    ensures a == b
    decreases |a|
  {
    BothEmptyOrNot(a, b);
    if a != [] {
      SameHead(a, b);
      SameTails(a, b);
      StableSortUnique(a[1..], b[1..]);
      assert a == [a[0]] + a[1..] && b == [b[0]] + b[1..];
    }
  }

  /** Sequences with the same rows for every id are both empty or both not. */
  lemma BothEmptyOrNot(a: seq<SearchDoc>, b: seq<SearchDoc>)
    requires forall k :: KeyFilter(a, k) == KeyFilter(b, k)
    ensures a == [] <==> b == []
  {
    if a != [] {
      assert KeyFilter(a, a[0].id) != [];
    }
    if b != [] {
      assert KeyFilter(b, b[0].id) != [];
    }
  }

  /** Two sorted sequences with the same rows for every id start with the same row. */
  lemma SameHead(a: seq<SearchDoc>, b: seq<SearchDoc>)
    requires SortedById(a) && SortedById(b) && a != [] && b != []
    requires forall k :: KeyFilter(a, k) == KeyFilter(b, k)
    ensures a[0] == b[0]
  {
    var ka, kb := a[0].id, b[0].id;
    KeyFilterMembers(a, kb);
    KeyFilterMembers(b, kb);
    KeyFilterMembers(a, ka);
    KeyFilterMembers(b, ka);
    assert b[0] in KeyFilter(b, kb);
    assert a[0] in KeyFilter(a, ka);
    assert ka <= kb by {
      var j :| 0 <= j < |a| && a[j] == b[0];
    }
    assert kb <= ka by {
      var j :| 0 <= j < |b| && b[j] == a[0];
    }
    assert KeyFilter(a, ka)[0] == a[0];
    assert KeyFilter(b, ka)[0] == b[0];
  }

  /** Dropping the same first row keeps the rows of every id equal. */
  lemma SameTails(a: seq<SearchDoc>, b: seq<SearchDoc>)
    requires a != [] && b != [] && a[0] == b[0]
    requires forall k :: KeyFilter(a, k) == KeyFilter(b, k)
    ensures forall k :: KeyFilter(a[1..], k) == KeyFilter(b[1..], k)
  {
    forall k
      ensures KeyFilter(a[1..], k) == KeyFilter(b[1..], k)
    {
      var n := if a[0].id == k then 1 else 0;
      assert KeyFilter(a[1..], k) == KeyFilter(a, k)[n..];
      assert KeyFilter(b[1..], k) == KeyFilter(b, k)[n..];
    }
  }

  // ---------------------------------------------------------------------------
  // document_info

  /**
    The `document_info` entry of a row: its content, `metadata.get('source', 'Unknown
    source')` and `metadata.get('page', 'Unknown page')`, a missing metadata dict
    counting as `{}`.
   */
  function InfoOf(d: SearchDoc): (r: DocInfo)
    ensures r.content == d.content
    ensures r.source == (if d.metadata.Some? && "source" in d.metadata.value then d.metadata.value["source"] else Str(UnknownSource))
    ensures r.page == (if d.metadata.Some? && "page" in d.metadata.value then d.metadata.value["page"] else Str(UnknownPage))
  {
    var metadata := d.metadata.GetOr(map[]);
    var source := if "source" in metadata then metadata["source"] else Str(UnknownSource);
    var page := if "page" in metadata then metadata["page"] else Str(UnknownPage);
    DocInfo(d.content, source, page)
  }

  function Infos(ds: seq<SearchDoc>): (r: seq<DocInfo>)
    ensures |r| == |ds|
    ensures forall i :: 0 <= i < |ds| ==> r[i] == InfoOf(ds[i])
  {
    seq(|ds|, i requires 0 <= i < |ds| => InfoOf(ds[i]))
  }

  // ---------------------------------------------------------------------------
  // next((doc for doc in document_info if ... in doc['content'].lower()), None)

  /** Some word of `words` occurs in the lower-cased `content`. */
  predicate Mentions(lower: string -> string, content: string, words: seq<string>) {
    exists k :: 0 <= k < |words| && Contains(lower(content), words[k])
  }

  /** `next((doc for doc in infos if <doc mentions one of words>), None)`. */
  function FirstMentioning(lower: string -> string, infos: seq<DocInfo>, words: seq<string>): (r: Option<DocInfo>)
    ensures r.Some? ==> r.value in infos && Mentions(lower, r.value.content, words)
  {
    if infos == [] then None
    else if Mentions(lower, infos[0].content, words) then Some(infos[0])
    else FirstMentioning(lower, infos[1..], words)
  }

  /**
    `next(...)` finds an entry exactly when some entry mentions one of the words, and
    then it is the first such entry: no earlier entry mentions any of them.
   */
  lemma {:induction false} FirstMentioningIsFirst(lower: string -> string, infos: seq<DocInfo>, words: seq<string>)
    ensures FirstMentioning(lower, infos, words).Some? <==> exists i :: 0 <= i < |infos| && Mentions(lower, infos[i].content, words)
    ensures FirstMentioning(lower, infos, words).Some? ==>
      exists i :: (0 <= i < |infos| && FirstMentioning(lower, infos, words).value == infos[i]
        && forall j :: 0 <= j < i ==> !Mentions(lower, infos[j].content, words))
  {
    if infos != [] && !Mentions(lower, infos[0].content, words) {
      var tail := infos[1..];
      FirstMentioningIsFirst(lower, tail, words);
      assert forall i :: 1 <= i < |infos| ==> infos[i] == tail[i - 1];
      if FirstMentioning(lower, tail, words).Some? {
        var i :| 0 <= i < |tail| && FirstMentioning(lower, tail, words).value == tail[i]
          && forall j :: 0 <= j < i ==> !Mentions(lower, tail[j].content, words);
        forall j | 0 <= j < i + 1
          ensures !Mentions(lower, infos[j].content, words)
        {
          if j > 0 { assert infos[j] == tail[j - 1]; }
        }
        assert FirstMentioning(lower, infos, words).value == infos[i + 1];
      } else {
        forall i | 0 <= i < |infos|
          ensures !Mentions(lower, infos[i].content, words)
        {
          if i > 0 { assert infos[i] == tail[i - 1]; }
        }
      }
    } else if infos != [] {
      assert Mentions(lower, infos[0].content, words);
    }
  }

  // ---------------------------------------------------------------------------
  // The bullet points

  /**
    `[line.strip() for line in content.split("•") if line.strip()]` when the content
    holds a bullet, else no points.
   */
  function BulletPoints(content: string): seq<string>
  {
    if Bullet in content then StripNonEmpty(SplitOn(content, Bullet)) else []
  }

  /** `bullet_points[:4]`. */
  function Shown(points: seq<string>): (r: seq<string>)
    ensures |r| <= MaxBullets && |r| <= |points|
    ensures r == points[..|r|]
    ensures |r| == |points| || |r| == MaxBullets
  {
    if |points| <= MaxBullets then points else points[..MaxBullets]
  }

  /** `point[:100] + "..."` for a point longer than 100 characters, else the point. */
  function Truncate(point: string): (r: string)
    ensures |point| <= MaxPointLength ==> r == point
    ensures |point| > MaxPointLength ==> r == point[..MaxPointLength] + "..."
    ensures |r| <= MaxPointLength + 3
  {
    if |point| > MaxPointLength then point[..MaxPointLength] + "..." else point
  }

  function BulletLine(point: string): string {
    "\n\U{2022} " + Truncate(point)
  }

  /** The bullet lines of `points`, in order. */
  function BulletText(points: seq<string>): string
  {
    if points == [] then "" else BulletText(points[..|points| - 1]) + BulletLine(points[|points| - 1])
  }

  // ---------------------------------------------------------------------------
  // The sources

  /** `f"- {doc['source']}, page {doc['page']}\n"`. */
  function SourceLine(info: DocInfo): string {
    "- " + Format(info.source) + ", page " + Format(info.page) + "\n"
  }

  /** The source lines of `infos`, in order. */
  function Footer(infos: seq<DocInfo>): string
  {
    if infos == [] then "" else Footer(infos[..|infos| - 1]) + SourceLine(infos[|infos| - 1])
  }

  // ---------------------------------------------------------------------------
  // The response

  function InternshipSection(lower: string -> string, infos: seq<DocInfo>): string {
    if FirstMentioning(lower, infos, InternshipWords).Some? then InternshipSentence else ""
  }

  function CompanySection(lower: string -> string, infos: seq<DocInfo>): string {
    if FirstMentioning(lower, infos, CompanyWords).Some? then CompanySentence else ""
  }

  function ResponsibilitiesSection(lower: string -> string, infos: seq<DocInfo>): string {
    match FirstMentioning(lower, infos, ResponsibilityWords)
    case None => ""
    case Some(info) => ResponsibilitiesHeader + BulletText(Shown(BulletPoints(info.content)))
  }

  /** The response `generate_response(documents)` returns. */
  function Response(lower: string -> string, documents: seq<SearchDoc>): string
  {
    var infos := Infos(SortById(documents));
    Prefix + InternshipSection(lower, infos) + CompanySection(lower, infos)
      + ResponsibilitiesSection(lower, infos) + SourcesHeading + Footer(infos)
  }

  /**
    `generate_response(documents)`: sort the rows, collect `document_info` entry by
    entry, then grow the response sentence by sentence, bullet by bullet and source
    line by source line.
   */
  method GenerateResponse(lower: string -> string, documents: seq<SearchDoc>) returns (response: string)
    ensures response == Response(lower, documents)
  {
    var sortedDocs := SortById(documents);
    var documentInfo := CollectInfo(sortedDocs);
    response := Prefix;
    if FirstMentioning(lower, documentInfo, InternshipWords).Some? {
      response := response + InternshipSentence;
    } else {
      AppendNothing(response);
    }
    ghost var opening := response;
    if FirstMentioning(lower, documentInfo, CompanyWords).Some? {
      response := response + CompanySentence;
    } else {
      AppendNothing(response);
    }
    assert response == opening + CompanySection(lower, documentInfo);
    opening := response;
    var responsibilitiesInfo := FirstMentioning(lower, documentInfo, ResponsibilityWords);
    if responsibilitiesInfo.Some? {
      response := response + ResponsibilitiesHeader;
      ghost var shown := Shown(BulletPoints(responsibilitiesInfo.value.content));
      if Bullet in responsibilitiesInfo.value.content {
        var bulletPoints := StripNonEmpty(SplitOn(responsibilitiesInfo.value.content, Bullet));
        response := AppendBullets(response, bulletPoints);
      } else {
        AppendNothing(response);
      }
      AppendAssoc(opening, ResponsibilitiesHeader, BulletText(shown));
    } else {
      AppendNothing(response);
    }
    assert response == opening + ResponsibilitiesSection(lower, documentInfo);
    response := response + SourcesHeading;
    response := AppendSources(response, documentInfo);
  }

  /** The loop `for doc in sorted_docs: document_info.append({...})`. */
  method CollectInfo(sortedDocs: seq<SearchDoc>) returns (documentInfo: seq<DocInfo>)
    ensures documentInfo == Infos(sortedDocs)
  {
    documentInfo := [];
    var i := 0;
    while i < |sortedDocs|
      invariant 0 <= i <= |sortedDocs|
      invariant documentInfo == Infos(sortedDocs[..i])
    {
      assert Infos(sortedDocs[..i + 1]) == Infos(sortedDocs[..i]) + [InfoOf(sortedDocs[i])];
      documentInfo := documentInfo + [InfoOf(sortedDocs[i])];
      i := i + 1;
    }
    assert sortedDocs[..i] == sortedDocs;
  }

  /**
    The loop `for point in bullet_points[:4]`: each of the first four points, cut to
    100 characters plus "..." when longer, goes on a line of its own after a bullet.
   */
  method AppendBullets(response: string, bulletPoints: seq<string>) returns (out: string)
    ensures out == response + BulletText(Shown(bulletPoints))
  {
    var shown := Shown(bulletPoints);
    out := response;
    var k := 0;
    while k < |bulletPoints| && k < MaxBullets
      invariant 0 <= k <= |shown|
      invariant out == response + BulletText(shown[..k])
    {
      var point := bulletPoints[k];
      if |point| > MaxPointLength {
        point := point[..MaxPointLength] + "...";
      }
      var line := "\n\U{2022} " + point;
      assert line == BulletLine(shown[k]);
      BulletTextStep(shown, k);
      AppendAssoc(response, BulletText(shown[..k]), line);
      out := out + line;
      k := k + 1;
    }
    assert shown[..k] == shown;
  }

  /** The loop `for doc in document_info`: one source line per entry, in order. */
  method AppendSources(response: string, documentInfo: seq<DocInfo>) returns (out: string)
    ensures out == response + Footer(documentInfo)
  {
    out := response;
    var j := 0;
    while j < |documentInfo|
      invariant 0 <= j <= |documentInfo|
      invariant out == response + Footer(documentInfo[..j])
    {
      var doc := documentInfo[j];
      FooterStep(documentInfo, j);
      AppendAssoc(response, Footer(documentInfo[..j]), SourceLine(doc));
      out := out + SourceLine(doc);
      j := j + 1;
    }
    assert documentInfo[..j] == documentInfo;
  }

  lemma BulletTextStep(points: seq<string>, k: nat)
    requires k < |points|
    ensures BulletText(points[..k + 1]) == BulletText(points[..k]) + BulletLine(points[k])
  {
    assert points[..k + 1][..k] == points[..k];
  }

  lemma FooterStep(infos: seq<DocInfo>, j: nat)
    requires j < |infos|
    ensures Footer(infos[..j + 1]) == Footer(infos[..j]) + SourceLine(infos[j])
  {
    assert infos[..j + 1][..j] == infos[..j];
  }

  // ---------------------------------------------------------------------------
  // Properties of the response

  /** A row of the sorted `document_info` mentions the words exactly when an input row does. */
  lemma SortedMentions(lower: string -> string, documents: seq<SearchDoc>, words: seq<string>)
    ensures (exists i :: 0 <= i < |Infos(SortById(documents))| && Mentions(lower, Infos(SortById(documents))[i].content, words))
        <==> (exists j :: 0 <= j < |documents| && Mentions(lower, documents[j].content, words))
  {
    var sorted := SortById(documents);
    var infos := Infos(sorted);
    SortByIdSorts(documents);
    if exists i :: 0 <= i < |infos| && Mentions(lower, infos[i].content, words) {
      var i :| 0 <= i < |infos| && Mentions(lower, infos[i].content, words);
      assert sorted[i] in multiset(documents);
      var j :| 0 <= j < |documents| && documents[j] == sorted[i];
      assert Mentions(lower, documents[j].content, words);
    }
    if exists j :: 0 <= j < |documents| && Mentions(lower, documents[j].content, words) {
      var j :| 0 <= j < |documents| && Mentions(lower, documents[j].content, words);
      assert documents[j] in multiset(sorted);
      var i :| 0 <= i < |sorted| && sorted[i] == documents[j];
      assert infos[i].content == documents[j].content;
    }
  }

  /**
    The keyword sentences: the internship sentence is there exactly when some row's
    lower-cased content contains "internship", the company sentence exactly when some
    contains "themison".
   */
  lemma KeywordSentences(lower: string -> string, documents: seq<SearchDoc>)
    ensures InternshipSection(lower, Infos(SortById(documents)))
      == (if exists j :: 0 <= j < |documents| && Contains(lower(documents[j].content), "internship") then InternshipSentence else "")
    ensures CompanySection(lower, Infos(SortById(documents)))
      == (if exists j :: 0 <= j < |documents| && Contains(lower(documents[j].content), "themison") then CompanySentence else "")
  {
    KeywordFound(lower, documents, "internship");
    KeywordFound(lower, documents, "themison");
  }

  /** `next(...)` over the sorted entries finds a row exactly when some input row mentions `w`. */
  lemma KeywordFound(lower: string -> string, documents: seq<SearchDoc>, w: string)
    ensures FirstMentioning(lower, Infos(SortById(documents)), [w]).Some?
      <==> exists j :: 0 <= j < |documents| && Contains(lower(documents[j].content), w)
  {
    FirstMentioningIsFirst(lower, Infos(SortById(documents)), [w]);
    SortedMentions(lower, documents, [w]);
    MentionsOne(lower, documents, w);
  }

  /**
    The responsibilities part (header first) is there exactly when some row's
    lower-cased content contains "responsibilities" or "duties", and its bullets come
    from the first such row in id order.
   */
  lemma ResponsibilitiesFromFirstRow(lower: string -> string, documents: seq<SearchDoc>)
    ensures ResponsibilitiesSection(lower, Infos(SortById(documents))) != "" <==>
      exists j :: 0 <= j < |documents| && (Contains(lower(documents[j].content), "responsibilities") || Contains(lower(documents[j].content), "duties"))
    ensures var infos := Infos(SortById(documents));
      ResponsibilitiesSection(lower, infos) != "" ==>
        exists i :: (0 <= i < |infos| && Mentions(lower, infos[i].content, ResponsibilityWords)
          && (forall j :: 0 <= j < i ==> !Mentions(lower, infos[j].content, ResponsibilityWords))
          && ResponsibilitiesSection(lower, infos) == ResponsibilitiesHeader + BulletText(Shown(BulletPoints(infos[i].content))))
  {
    var infos := Infos(SortById(documents));
    FirstMentioningIsFirst(lower, infos, ResponsibilityWords);
    SortedMentions(lower, documents, ResponsibilityWords);
    MentionsTwo(lower, documents, "responsibilities", "duties");
  }

  lemma MentionsOne(lower: string -> string, documents: seq<SearchDoc>, w: string)
    ensures (exists j :: 0 <= j < |documents| && Mentions(lower, documents[j].content, [w]))
        <==> (exists j :: 0 <= j < |documents| && Contains(lower(documents[j].content), w))
  {
    if exists j :: 0 <= j < |documents| && Contains(lower(documents[j].content), w) {
      var j :| 0 <= j < |documents| && Contains(lower(documents[j].content), w);
      assert [w][0] == w;
      assert Mentions(lower, documents[j].content, [w]);
    }
  }

  lemma MentionsTwo(lower: string -> string, documents: seq<SearchDoc>, w1: string, w2: string)
    ensures (exists j :: 0 <= j < |documents| && Mentions(lower, documents[j].content, [w1, w2]))
        <==> (exists j :: 0 <= j < |documents| && (Contains(lower(documents[j].content), w1) || Contains(lower(documents[j].content), w2)))
  {
    if exists j :: 0 <= j < |documents| && (Contains(lower(documents[j].content), w1) || Contains(lower(documents[j].content), w2)) {
      var j :| 0 <= j < |documents| && (Contains(lower(documents[j].content), w1) || Contains(lower(documents[j].content), w2));
      assert [w1, w2][0] == w1 && [w1, w2][1] == w2;
      assert Mentions(lower, documents[j].content, [w1, w2]);
    }
  }

  /**
    The bullets of a responsibilities row: none unless the content holds a bullet, at
    most four, each the non-empty strip of a piece of the content cut at the bullets,
    holding no bullet itself, and shown in at most 103 characters.
   */
  lemma BulletPointsShape(content: string)
    ensures Bullet !in content ==> BulletPoints(content) == []
    ensures var shown := Shown(BulletPoints(content));
      && |shown| <= MaxBullets
      && forall k :: 0 <= k < |shown| ==>
        && shown[k] != ""
        && Bullet !in shown[k]
        && (exists w :: w in SplitOn(content, Bullet) && shown[k] == Strip(w))
        && |Truncate(shown[k])| <= MaxPointLength + 3
  {
    var points := BulletPoints(content);
    var shown := Shown(points);
    if Bullet in content {
      StripNonEmptyPieces(SplitOn(content, Bullet));
      StripNonEmptyKeepsOut(SplitOn(content, Bullet), Bullet);
    }
    forall k | 0 <= k < |shown|
      ensures shown[k] in points
    {
      assert shown[k] == points[k];
    }
  }

  /**
    Each bullet line starts with a bullet and no point holds one, so the bullet text
    holds exactly one bullet per point shown.
   */
  lemma {:induction false} BulletCount(points: seq<string>)
    requires forall k :: 0 <= k < |points| ==> Bullet !in points[k]
    ensures Count(BulletText(points), Bullet) == |points|
  {
    if points != [] {
      var init := points[..|points| - 1];
      var p := points[|points| - 1];
      BulletCount(init);
      var t := Truncate(p);
      assert Bullet !in t by {
        if |p| > MaxPointLength {
          assert forall k :: 0 <= k < MaxPointLength ==> t[k] == p[k];
          assert forall k :: MaxPointLength <= k < |t| ==> t[k] == '.';
        }
      }
      CountAbsent(t, Bullet);
      CountAppend(BulletText(init), BulletLine(p), Bullet);
      CountAppend("\n\U{2022} ", t, Bullet);
    }
  }

  /** The source lines of two runs of entries are the lines of the first, then of the second. */
  lemma {:induction false} FooterAppend(a: seq<DocInfo>, b: seq<DocInfo>)
    ensures Footer(a + b) == Footer(a) + Footer(b)
    decreases |b|
  {
    if b != [] {
      var init := b[..|b| - 1];
      FooterAppend(a, init);
      assert (a + b)[..|a + b| - 1] == a + init;
      assert (a + b)[|a + b| - 1] == b[|b| - 1];
      AppendAssoc(Footer(a), Footer(init), SourceLine(b[|b| - 1]));
    } else {
      assert a + b == a;
    }
  }

  /**
    The response starts with the fixed opening sentence and ends with the sources
    heading followed by one source line per row, in ascending id order.
   */
  lemma ResponseFrame(lower: string -> string, documents: seq<SearchDoc>)
    ensures StartsWith(Response(lower, documents), Prefix)
    ensures var tail := SourcesHeading + Footer(Infos(SortById(documents)));
      |tail| <= |Response(lower, documents)| && Response(lower, documents)[|Response(lower, documents)| - |tail|..] == tail
  {
    var infos := Infos(SortById(documents));
    var i, c, r := InternshipSection(lower, infos), CompanySection(lower, infos), ResponsibilitiesSection(lower, infos);
    var tail := SourcesHeading + Footer(infos);
    var opening := Prefix + i + c + r;
    SliceOfConcat(Prefix, i);
    StartsWithAppend(Prefix + i, c, Prefix);
    StartsWithAppend(Prefix + i + c, r, Prefix);
    AppendAssoc(opening, SourcesHeading, Footer(infos));
    StartsWithAppend(opening, tail, Prefix);
    SliceOfConcat(opening, tail);
  }

  lemma StartsWithAppend(a: string, b: string, p: string)
    requires StartsWith(a, p)
    ensures StartsWith(a + b, p)
  {
    assert (a + b)[..|p|] == a[..|p|];
  }

  /**
    With distinct ids the order in which the rows arrive does not matter: any
    rearrangement of the same rows gets the same response.
   */
  lemma ResponseIgnoresArrivalOrder(lower: string -> string, d1: seq<SearchDoc>, d2: seq<SearchDoc>)
    requires multiset(d1) == multiset(d2)
    requires DistinctIds(d1) && DistinctIds(d2)
    ensures Response(lower, d1) == Response(lower, d2)
  {
    SortByIdSorts(d1);
    SortByIdSorts(d2);
    forall k
      ensures KeyFilter(SortById(d1), k) == KeyFilter(SortById(d2), k)
    {
      DistinctKeyFilter(d1, d2, k);
    }
    StableSortUnique(SortById(d1), SortById(d2));
  }

  predicate DistinctIds(s: seq<SearchDoc>) {
    forall i, j :: 0 <= i < j < |s| ==> s[i].id != s[j].id
  }

  /** With distinct ids, at most one row has a given id. */
  lemma {:induction false} KeyFilterAtMostOne(s: seq<SearchDoc>, k: int)
    requires DistinctIds(s)
    ensures |KeyFilter(s, k)| <= 1
    ensures KeyFilter(s, k) != [] ==> KeyFilter(s, k)[0].id == k
  {
    if s != [] {
      assert DistinctIds(s[1..]) by {
        assert forall i :: 0 <= i < |s[1..]| ==> s[1..][i] == s[i + 1];
      }
      KeyFilterAtMostOne(s[1..], k);
      if s[0].id == k {
        assert forall i :: 0 <= i < |s[1..]| ==> s[1..][i].id != k by {
          assert forall i :: 0 <= i < |s[1..]| ==> s[1..][i] == s[i + 1];
        }
        KeyFilterMembers(s[1..], k);
        assert forall e :: e in KeyFilter(s[1..], k) ==> false;
      }
    }
  }

  /** Equal multisets of rows with distinct ids have the same row for every id. */
  lemma DistinctKeyFilter(d1: seq<SearchDoc>, d2: seq<SearchDoc>, k: int)
    requires multiset(d1) == multiset(d2)
    requires DistinctIds(d1) && DistinctIds(d2)
    ensures KeyFilter(d1, k) == KeyFilter(d2, k)
  {
    KeyFilterAtMostOne(d1, k);
    KeyFilterAtMostOne(d2, k);
    if KeyFilter(d1, k) != [] {
      SharedRow(d1, d2, k, KeyFilter(d1, k)[0]);
    }
    if KeyFilter(d2, k) != [] {
      SharedRow(d2, d1, k, KeyFilter(d2, k)[0]);
    }
    SameSingleton(KeyFilter(d1, k), KeyFilter(d2, k));
  }

  /** Two sequences of at most one row, each holding the other's row, are equal. */
  lemma SameSingleton(a: seq<SearchDoc>, b: seq<SearchDoc>)
    requires |a| <= 1 && |b| <= 1
    requires a != [] ==> a[0] in b
    requires b != [] ==> b[0] in a
    ensures a == b
  {
  }

  /** A row with id `k` of one sequence is a row with id `k` of any permutation of it. */
  lemma SharedRow(d1: seq<SearchDoc>, d2: seq<SearchDoc>, k: int, e: SearchDoc)
    requires multiset(d1) == multiset(d2)
    requires e in KeyFilter(d1, k)
    ensures e in KeyFilter(d2, k)
  {
    KeyFilterMembers(d1, k);
    KeyFilterMembers(d2, k);
    assert e in multiset(d1);
  }
}
