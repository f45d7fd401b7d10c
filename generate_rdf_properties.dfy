/**
 * What the graph builder of generate_rdf.py guarantees, stated over the functions
 * that say what each step adds.
 */
module GenerateRdfProperties {
  import opened Wrappers
  import opened PyValue
  import UrlQuote
  import opened GenerateRdf

  // ---------------------------------------------------------------------------
  // IRIs
  // ---------------------------------------------------------------------------

  /** The unquoted text after `prefix` in an IRI, or None when the IRI does not start with it. */
  function LocalName(prefix: string, iri: string): Option<string>
  {
    if StartsWith(iri, prefix) then UrlQuote.Unquote(iri[|prefix|..]) else None
  }

  lemma LocalNameOf(prefix: string, text: string)
    ensures LocalName(prefix, prefix + UrlQuote.Quote(text)) == Some(text)
  {
    var iri := prefix + UrlQuote.Quote(text);
    assert iri[..|prefix|] == prefix;
    assert iri[|prefix|..] == UrlQuote.Quote(text);
    UrlQuote.UnquoteQuote(text);
  }

  /** The user's IRI gives back the user name, and the slug of a destination's IRI its slug. */
  lemma IrisRecoverNames(name: string, slug: string)
    ensures LocalName(UserPrefix, UserUri(name)) == Some(name)
    ensures LocalName(DestinoPrefix, DestinoUri(slug)) == Some(slug)
  {
    LocalNameOf(UserPrefix, name);
    LocalNameOf(DestinoPrefix, slug);
  }

  /** Different slugs name different destination nodes. */
  lemma DestinoUriInjective(slug1: string, slug2: string)
    requires DestinoUri(slug1) == DestinoUri(slug2)
    ensures slug1 == slug2
  {
    IrisRecoverNames("", slug1);
    IrisRecoverNames("", slug2);
  }

  /** User, destination and tour IRIs never coincide: they differ in the first character after `EX`. */
  lemma KindsDiffer(x: string, y: string)
    ensures DestinoPrefix + x != TourPrefix + y
    ensures DestinoPrefix + x != UserPrefix + y
    ensures TourPrefix + x != UserPrefix + y
  {
    assert (DestinoPrefix + x)[19] == 'D';
    assert (TourPrefix + y)[19] == 'T';
    assert (TourPrefix + x)[19] == 'T';
    assert (UserPrefix + y)[19] == 'U';
  }

  // ---------------------------------------------------------------------------
  // The user node
  // ---------------------------------------------------------------------------

  /**
   * `_init_graph` yields exactly two triples, both about the user's IRI: the user is a
   * `foaf:Person` with the literal name as `foaf:nick`.
   */
  lemma InitGraphUserNode(name: string)
    ensures |UserTriples(name)| == 2
    ensures forall t :: t in UserTriples(name) ==> t.subject == UserUri(name)
    ensures Triple(UserUri(name), RdfType, Iri(FoafPerson)) in UserTriples(name)
    ensures Triple(UserUri(name), FoafNick, Lit(Str(name))) in UserTriples(name)
  {
    assert |RdfType| != |FoafNick|;
  }

  // ---------------------------------------------------------------------------
  // Predicates
  // ---------------------------------------------------------------------------

  lemma ExAppendInjective(a: string, b: string)
    requires Ex + a == Ex + b
    ensures a == b
  {
    assert a == (Ex + a)[|Ex|..];
    assert b == (Ex + b)[|Ex|..];
  }

  /** The six field predicates are pairwise distinct and distinct from every other predicate the builder writes. */
  lemma FieldPredicatesDistinct(k1: string, k2: string)
    requires k1 in DestinoFields && k2 in DestinoFields
    ensures FieldPredicate(k1) == FieldPredicate(k2) ==> k1 == k2
    ensures FieldPredicate(k1) != RdfType
    ensures FieldPredicate(k1) != ExMostroInteresEn
    ensures FieldPredicate(k1) != ExOfrece
  {
    if k1 != "nombre" && k2 != "nombre" && FieldPredicate(k1) == FieldPredicate(k2) {
      ExAppendInjective(k1, k2);
    }
    if k1 == "precio" {
      assert FieldPredicate(k1)[19] != ExOfrece[19];
    }
  }

  // ---------------------------------------------------------------------------
  // One destination row
  // ---------------------------------------------------------------------------

  /**
   * Only a missing `slug` key skips a row; a slug that is not a string raises; any
   * string slug, the empty one included, is processed.
   */
  lemma DestinoStepCases(user: string, row: Row, host: Host)
    ensures DestinoStep(user, row, host).Skipped? <==> "slug" !in row
    ensures DestinoStep(user, row, host).Raised? <==> SlugRaises(row)
    ensures DestinoStep(user, row, host).Added? <==> "slug" in row && row["slug"].Str?
    ensures !DestinoStep(user, row, host).Added? ==> Contribution(user, row, host) == {}
  {
  }

  /** An element of FieldTriples is the literal triple of a present field. */
  lemma FieldTriplesMembers(dest: string, row: Row, t: Triple)
    requires t in FieldTriples(dest, row)
    ensures exists k :: k in DestinoFields && k in row && t == Triple(dest, FieldPredicate(k), Lit(row[k]))
  {
    var fs := DestinoFields;
    if t in FieldTriple(dest, row, fs[0]) {
      assert fs[0] in fs;
    } else if t in FieldTriple(dest, row, fs[1]) {
      assert fs[1] in fs;
    } else if t in FieldTriple(dest, row, fs[2]) {
      assert fs[2] in fs;
    } else if t in FieldTriple(dest, row, fs[3]) {
      assert fs[3] in fs;
    } else if t in FieldTriple(dest, row, fs[4]) {
      assert fs[4] in fs;
    } else {
      assert fs[5] in fs;
    }
  }

  /** A tour triple about the destination itself is its `ex:ofrece` edge. */
  lemma TourTripleAboutDestino(dest: string, m: map<string, Value>, host: Host, t: Triple)
    requires StartsWith(dest, DestinoPrefix)
    requires t in TourTriples(dest, m, host)
    requires t.subject == dest
    ensures t == Triple(dest, ExOfrece, Iri(TourUri(m, host)))
  {
    assert dest == DestinoPrefix + dest[|DestinoPrefix|..];
    KindsDiffer(dest[|DestinoPrefix|..], TourFragment(m, host));
  }

  /** The union of `f(x)` over the elements `x` of `xs`. */
  function Union<X>(xs: seq<X>, f: X -> set<Triple>): set<Triple>
    decreases |xs|
  {
    if xs == [] then {} else Union(xs[..|xs| - 1], f) + f(xs[|xs| - 1])
  }

  /** ToursUnion is the union of one pass's triples over the tours. */
  lemma {:induction false} ToursUnionIsUnion(dest: string, ts: seq<Value>, host: Host)
    ensures ToursUnion(dest, ts, host)
         == Union(ts, (v: Value) => if v.Dict? then TourTriples(dest, v.fields, host) else {})
    decreases |ts|
  {
    if ts != [] {
      ToursUnionIsUnion(dest, ts[..|ts| - 1], host);
    }
  }

  /** RowsTriples is the union of the rows' contributions. */
  lemma {:induction false} RowsTriplesIsUnion(user: string, rows: seq<Row>, host: Host)
    ensures RowsTriples(user, rows, host) == Union(rows, (row: Row) => Contribution(user, row, host))
    decreases |rows|
  {
    if rows != [] {
      RowsTriplesIsUnion(user, rows[..|rows| - 1], host);
    }
  }

  /** The triples of a run of dicts are those of its members. */
  lemma ToursUnionMembership(dest: string, ts: seq<Value>, host: Host, t: Triple)
    requires forall j :: 0 <= j < |ts| ==> ts[j].Dict?
    ensures t in ToursUnion(dest, ts, host)
        <==> exists j :: 0 <= j < |ts| && t in TourTriples(dest, ts[j].fields, host)
  {
    var f := (v: Value) => if v.Dict? then TourTriples(dest, v.fields, host) else {};
    ToursUnionIsUnion(dest, ts, host);
    UnionMembership(ts, f, t);
    assert forall j :: 0 <= j < |ts| ==> f(ts[j]) == TourTriples(dest, ts[j].fields, host);
  }

  /**
   * The tour triples of a row are exactly those of each tour before the first element
   * that is not a dict: a failure keeps every earlier tour and stops the rest.
   */
  lemma ToursStopAtFirstFailure(dest: string, row: Row, host: Host, t: Triple)
    ensures var ts := TourElements(row, host);
      (t in ToursAdded(dest, row, host)
       <==> exists j :: 0 <= j < FirstNonDict(ts) && t in TourTriples(dest, ts[j].fields, host))
  {
    var ts := TourElements(row, host);
    var k := FirstNonDict(ts);
    var done := ts[..k];
    assert forall j :: 0 <= j < k ==> done[j] == ts[j];
    ToursUnionMembership(dest, done, host, t);
  }

  /**
   * When a row has a string slug, its contribution holds the destination's type and the
   * user's interest edge, and for each of the six optional fields exactly the one
   * literal triple of that field if the key is present and none if it is absent.
   */
  lemma DestinoFieldLiteral(user: string, row: Row, host: Host, key: string)
    requires "slug" in row && row["slug"].Str?
    requires key in DestinoFields
    ensures var dest := DestinoUri(row["slug"].s);
      && Triple(dest, RdfType, Iri(ExDestino)) in Contribution(user, row, host)
      && Triple(user, ExMostroInteresEn, Iri(dest)) in Contribution(user, row, host)
      && (set t | t in Contribution(user, row, host) && t.subject == dest && t.pred == FieldPredicate(key))
         == (if key in row then {Triple(dest, FieldPredicate(key), Lit(row[key]))} else {})
  {
    var dest := DestinoUri(row["slug"].s);
    ContributionOfStringSlug(user, row, host);
    var c := Contribution(user, row, host);
    var found := set t | t in c && t.subject == dest && t.pred == FieldPredicate(key);
    var want := if key in row then {Triple(dest, FieldPredicate(key), Lit(row[key]))} else {};
    forall t | t in found
      ensures t in want
    {
      if t in ToursAdded(dest, row, host) {
        ToursAddedAboutDestino(dest, row, host, t);
        FieldPredicatesDistinct(key, key);
      } else {
        OwnTriplePredicates(user, dest, row, t, key);
      }
    }
    if key in row {
      var lit := Triple(dest, FieldPredicate(key), Lit(row[key]));
      FieldTripleIncluded(dest, row, key);
      assert lit in DestinoOwnTriples(user, dest, row);
      assert lit in found;
    }
  }

  lemma FieldTripleIncluded(dest: string, row: Row, key: string)
    requires key in DestinoFields
    ensures FieldTriple(dest, row, key) <= FieldTriples(dest, row)
  {
  }

  /**
   * Among a destination's own triples, one with a field's predicate is that field's
   * literal triple, and none has the predicate `ex:ofrece`.
   */
  lemma OwnTriplePredicates(user: string, dest: string, row: Row, t: Triple, key: string)
    requires t in DestinoOwnTriples(user, dest, row)
    requires key in DestinoFields
    ensures t.pred != ExOfrece
    ensures t.pred == FieldPredicate(key) ==> key in row && t == Triple(dest, FieldPredicate(key), Lit(row[key]))
  {
    FieldPredicatesDistinct(key, key);
    assert ExOfrece != RdfType && ExOfrece != ExMostroInteresEn;
    if t in FieldTriples(dest, row) {
      FieldTriplesMembers(dest, row, t);
      var k :| k in DestinoFields && k in row && t == Triple(dest, FieldPredicate(k), Lit(row[k]));
      FieldPredicatesDistinct(k, key);
    }
  }

  /** A tour triple about the destination is an `ex:ofrece` edge to one of the processed tours. */
  lemma ToursAddedAboutDestino(dest: string, row: Row, host: Host, t: Triple)
    requires StartsWith(dest, DestinoPrefix)
    requires t in ToursAdded(dest, row, host) && t.subject == dest
    ensures var ts := TourElements(row, host);
      && t.pred == ExOfrece
      && exists j :: 0 <= j < FirstNonDict(ts) && t.obj == Iri(TourUri(ts[j].fields, host))
  {
    var ts := TourElements(row, host);
    ToursStopAtFirstFailure(dest, row, host, t);
    var j :| 0 <= j < FirstNonDict(ts) && t in TourTriples(dest, ts[j].fields, host);
    TourTripleAboutDestino(dest, ts[j].fields, host, t);
  }

  /**
   * The `ex:ofrece` edges out of a destination lead to exactly the tour nodes of the
   * tours processed for it; tours that share a node share one edge.
   */
  lemma OffersEdges(user: string, row: Row, host: Host, x: Term)
    requires "slug" in row && row["slug"].Str?
    ensures var dest := DestinoUri(row["slug"].s);
      var ts := TourElements(row, host);
      (Triple(dest, ExOfrece, x) in Contribution(user, row, host)
       <==> exists j :: 0 <= j < FirstNonDict(ts) && x == Iri(TourUri(ts[j].fields, host)))
  {
    var dest := DestinoUri(row["slug"].s);
    var ts := TourElements(row, host);
    var e := Triple(dest, ExOfrece, x);
    ContributionOfStringSlug(user, row, host);
    if e in ToursAdded(dest, row, host) {
      ToursAddedAboutDestino(dest, row, host, e);
    } else if e in DestinoOwnTriples(user, dest, row) {
      OwnTriplePredicates(user, dest, row, e, "nombre");
    }
    forall j | 0 <= j < FirstNonDict(ts) && x == Iri(TourUri(ts[j].fields, host))
      ensures e in ToursAdded(dest, row, host)
    {
      ToursStopAtFirstFailure(dest, row, host, e);
      assert e in TourTriples(dest, ts[j].fields, host);
    }
  }

  /** A row with a string slug contributes its destination's own triples and its tours' triples. */
  lemma ContributionOfStringSlug(user: string, row: Row, host: Host)
    requires "slug" in row && row["slug"].Str?
    ensures Contribution(user, row, host)
         == DestinoOwnTriples(user, DestinoUri(row["slug"].s), row) + ToursAdded(DestinoUri(row["slug"].s), row, host)
  {
  }

  /**
   * A row whose `tours` text `json.loads` rejects still contributes all of the
   * destination's own triples, and nothing else.
   */
  lemma MalformedToursKeepDestino(user: string, row: Row, host: Host)
    requires "slug" in row && row["slug"].Str?
    requires "tours" in row && row["tours"].Str? && host.jsonLoads(row["tours"].s).None?
    ensures Contribution(user, row, host) == DestinoOwnTriples(user, DestinoUri(row["slug"].s), row)
  {
  }

  /**
   * Which tours the loop sees: none unless `tours` is truthy; a string goes through
   * `json.loads`, a list is iterated as it is, an `int` or a `bool` raises.
   */
  lemma TourElementsCases(row: Row, host: Host)
    ensures !HasTours(row) ==> TourElements(row, host) == []
    ensures HasTours(row) && row["tours"].List? ==> TourElements(row, host) == row["tours"].items
    ensures HasTours(row) && row["tours"].Str? && host.jsonLoads(row["tours"].s).Some?
              && host.jsonLoads(row["tours"].s).value.List?
            ==> TourElements(row, host) == host.jsonLoads(row["tours"].s).value.items
    ensures HasTours(row) && (row["tours"].Int? || row["tours"].Bool?) ==> TourElements(row, host) == []
  {
  }

  // ---------------------------------------------------------------------------
  // One tour
  // ---------------------------------------------------------------------------

  /**
   * A tour gets its type, its label and one `ex:ofrece` edge from the destination;
   * `ex:priceUSD` and `ex:operator` only when `precio` and `operador` are keys.
   */
  lemma TourTriplesShape(dest: string, m: map<string, Value>, host: Host)
    ensures var tour := TourUri(m, host);
      var r := TourTriples(dest, m, host);
      && Triple(tour, RdfType, Iri(ExTour)) in r
      && Triple(tour, RdfsLabel, Lit(TourLabel(m))) in r
      && (set t | t in r && t.pred == ExOfrece) == {Triple(dest, ExOfrece, Iri(tour))}
      && ((exists o :: Triple(tour, ExPriceUsd, o) in r) <==> "precio" in m)
      && ((exists o :: Triple(tour, ExOperator, o) in r) <==> "operador" in m)
  {
    var tour := TourUri(m, host);
    var r := TourTriples(dest, m, host);
    assert ExOfrece != RdfType && ExOfrece != RdfsLabel;
    assert |ExOfrece| != |ExPriceUsd| && |ExOfrece| != |ExOperator|;
    assert ExPriceUsd[19] != ExOperator[19];
    assert ExPriceUsd != RdfType && ExPriceUsd != RdfsLabel;
    assert ExOperator != RdfType && ExOperator != RdfsLabel;
    if "precio" in m {
      assert Triple(tour, ExPriceUsd, Lit(m["precio"])) in r;
    }
    if "operador" in m {
      assert Triple(tour, ExOperator, Lit(m["operador"])) in r;
    }
  }

  /**
   * Two tours share a node exactly when their identifiers print the same once spaces
   * become underscores: the quoting itself never merges two texts.
   */
  lemma TourNodesMerge(t1: map<string, Value>, t2: map<string, Value>, host: Host)
    ensures TourUri(t1, host) == TourUri(t2, host)
        <==> SpacesToUnderscores(ToStr(TourId(t1), host.repr)) == SpacesToUnderscores(ToStr(TourId(t2), host.repr))
  {
    var a := SpacesToUnderscores(ToStr(TourId(t1), host.repr));
    var b := SpacesToUnderscores(ToStr(TourId(t2), host.repr));
    if TourUri(t1, host) == TourUri(t2, host) {
      LocalNameOf(TourPrefix, a);
      LocalNameOf(TourPrefix, b);
    }
  }

  lemma UnderscoreText()
    ensures SpacesToUnderscores("City Tour") == "City_Tour" == SpacesToUnderscores("City_Tour")
  {
  }

  /** `"City Tour"` as an id and `"City_Tour"` as a name give one node. */
  lemma SpaceAndUnderscoreMerge(host: Host)
    ensures TourUri(map["id" := Str("City Tour")], host) == TourUri(map["nombre" := Str("City_Tour")], host)
  {
    var t1 := map["id" := Str("City Tour")];
    var t2 := map["nombre" := Str("City_Tour")];
    assert ToStr(TourId(t1), host.repr) == "City Tour";
    assert ToStr(TourId(t2), host.repr) == "City_Tour";
    UnderscoreText();
  }

  /** A falsy id falls back to the name even when that name is None, which prints as `None`. */
  lemma TourIdNoneName(t: map<string, Value>, host: Host)
    requires !("id" in t && Truthy(t["id"]))
    requires "nombre" in t && t["nombre"] == Null
    ensures TourId(t) == Null
    ensures TourFragment(t, host) == "None"
  {
    UrlQuote.QuoteKeepsSafeText("None");
    assert SpacesToUnderscores("None") == "None";
  }

  /** A tour with a falsy or missing id and no name is the node `EX Tour#tour`. */
  lemma TourIdDefault(t: map<string, Value>, host: Host)
    requires !("id" in t && Truthy(t["id"]))
    requires "nombre" !in t
    ensures TourUri(t, host) == TourPrefix + "tour"
  {
    UrlQuote.QuoteKeepsSafeText("tour");
    assert SpacesToUnderscores("tour") == "tour";
  }

  /** What `str()` writes for an int is safe for `quote` and has no space. */
  lemma IntTextIsSafe(i: int)
    ensures forall k :: 0 <= k < |IntToString(i)| ==> UrlQuote.IsSafe(IntToString(i)[k]) && IntToString(i)[k] != ' '
  {
  }

  /** A non-zero int id gives the node `EX Tour#` followed by its decimal text. */
  lemma TourIdInt(t: map<string, Value>, host: Host)
    requires "id" in t && t["id"].Int? && t["id"].i != 0
    ensures TourUri(t, host) == TourPrefix + IntToString(t["id"].i)
  {
    var s := IntToString(t["id"].i);
    assert ToStr(TourId(t), host.repr) == s;
    IntTextIsSafe(t["id"].i);
    NoSpacesUnchanged(s);
    UrlQuote.QuoteKeepsSafeText(s);
  }

  /** Tours whose ids are non-zero ints share a node exactly when the ids are equal. */
  lemma IntIdsMerge(t1: map<string, Value>, t2: map<string, Value>, host: Host)
    requires "id" in t1 && t1["id"].Int? && t1["id"].i != 0
    requires "id" in t2 && t2["id"].Int? && t2["id"].i != 0
    ensures TourUri(t1, host) == TourUri(t2, host) <==> t1["id"] == t2["id"]
  {
    var s1, s2 := IntToString(t1["id"].i), IntToString(t2["id"].i);
    assert ToStr(TourId(t1), host.repr) == s1 && ToStr(TourId(t2), host.repr) == s2;
    NoSpacesUnchanged(s1);
    NoSpacesUnchanged(s2);
    TourNodesMerge(t1, t2, host);
    if s1 == s2 {
      IntToStringInjective(t1["id"].i, t2["id"].i);
    }
  }

  // ---------------------------------------------------------------------------
  // The row loop
  // ---------------------------------------------------------------------------

  /** A union over consecutive runs is the union of the runs' unions. */
  lemma {:induction false} UnionAppend<X>(a: seq<X>, b: seq<X>, f: X -> set<Triple>)
    ensures Union(a + b, f) == Union(a, f) + Union(b, f)
    decreases |b|
  {
    if b == [] {
      assert a + b == a;
    } else {
      var n := |b| - 1;
      UnionAppend(a, b[..n], f);
      assert (a + b)[..|a + b| - 1] == a + b[..n];
      assert (a + b)[|a + b| - 1] == b[n];
    }
  }

  /** A triple is in a union exactly when one of its parts holds it. */
  lemma {:induction false} UnionMembership<X>(xs: seq<X>, f: X -> set<Triple>, t: Triple)
    ensures t in Union(xs, f) <==> exists i :: 0 <= i < |xs| && t in f(xs[i])
    decreases |xs|
  {
    if xs != [] {
      var n := |xs| - 1;
      var front := xs[..n];
      UnionMembership(front, f, t);
      if t in Union(front, f) {
        var i :| 0 <= i < n && t in f(front[i]);
        assert front[i] == xs[i];
      } else if t !in f(xs[n]) {
        forall i | 0 <= i < n
          ensures t !in f(xs[i])
        {
          assert front[i] == xs[i];
        }
      }
    }
  }

  /** The triples of consecutive runs of rows are the union of each run's. */
  lemma RowsTriplesAppend(user: string, a: seq<Row>, b: seq<Row>, host: Host)
    ensures RowsTriples(user, a + b, host) == RowsTriples(user, a, host) + RowsTriples(user, b, host)
  {
    RowsTriplesIsUnion(user, a + b, host);
    RowsTriplesIsUnion(user, a, host);
    RowsTriplesIsUnion(user, b, host);
    UnionAppend(a, b, (row: Row) => Contribution(user, row, host));
  }

  /** A triple is in the rows' union exactly when some row contributes it. */
  lemma RowsTriplesMembership(user: string, rows: seq<Row>, host: Host, t: Triple)
    ensures t in RowsTriples(user, rows, host)
        <==> exists i :: 0 <= i < |rows| && t in Contribution(user, rows[i], host)
  {
    RowsTriplesIsUnion(user, rows, host);
    UnionMembership(rows, (row: Row) => Contribution(user, row, host), t);
  }

  /** Only the set of rows matters: their order and repetitions do not change the graph. */
  lemma RowsOrderIrrelevant(user: string, rows1: seq<Row>, rows2: seq<Row>, host: Host)
    requires forall r :: r in rows1 <==> r in rows2
    ensures RowsTriples(user, rows1, host) == RowsTriples(user, rows2, host)
  {
    forall t | t in RowsTriples(user, rows1, host)
      ensures t in RowsTriples(user, rows2, host)
    {
      RowsTriplesMembership(user, rows1, host, t);
      RowsTriplesMembership(user, rows2, host, t);
      var i :| 0 <= i < |rows1| && t in Contribution(user, rows1[i], host);
      assert rows1[i] in rows2;
      var j :| 0 <= j < |rows2| && rows2[j] == rows1[i];
    }
    forall t | t in RowsTriples(user, rows2, host)
      ensures t in RowsTriples(user, rows1, host)
    {
      RowsTriplesMembership(user, rows1, host, t);
      RowsTriplesMembership(user, rows2, host, t);
      var i :| 0 <= i < |rows2| && t in Contribution(user, rows2[i], host);
      assert rows2[i] in rows1;
      var j :| 0 <= j < |rows1| && rows1[j] == rows2[i];
    }
  }

  /** A row without a slug leaves the graph as the other rows make it. */
  lemma SluglessRowIgnored(user: string, before: seq<Row>, row: Row, after: seq<Row>, host: Host)
    requires "slug" !in row
    ensures RowsTriples(user, before + [row] + after, host) == RowsTriples(user, before + after, host)
  {
    RowsTriplesAppend(user, before + [row], after, host);
    RowsTriplesAppend(user, before, [row], host);
    RowsTriplesAppend(user, before, after, host);
    RowsTriplesStep(user, [row], 0, host);
    assert [row][..1] == [row] && [row][..0] == [];
  }

  /** The graph holds the user node and every row's contribution, and nothing more. */
  lemma BuiltGraphContents(name: string, rows: seq<Row>, host: Host, t: Triple)
    ensures t in UserTriples(name) + RowsTriples(UserUri(name), rows, host)
        <==> t in UserTriples(name) || exists i :: 0 <= i < |rows| && t in Contribution(UserUri(name), rows[i], host)
  {
    RowsTriplesMembership(UserUri(name), rows, host, t);
  }

  // ---------------------------------------------------------------------------
  // Worked examples
  // ---------------------------------------------------------------------------

  /** Without a name argument the user node is `EX Usuario#Usuario123`. */
  lemma DefaultUserNode()
    ensures UserUri(DefaultUser) == UserPrefix + "Usuario123"
  {
    DefaultUserIsSafe();
    UrlQuote.QuoteKeepsSafeText(DefaultUser);
  }

  lemma DefaultUserIsSafe()
    ensures forall i :: 0 <= i < |DefaultUser| ==> UrlQuote.IsSafe(DefaultUser[i])
  {
    var u := "Usuario123";
    assert DefaultUser == u;
    assert forall i :: 0 <= i < 7 ==> 'A' <= u[i] <= 'Z' || 'a' <= u[i] <= 'z';
  }

  /** An empty slug is not skipped: it names the destination node `Destino#` itself. */
  lemma EmptySlugNotSkipped(user: string, host: Host)
    ensures Triple("https://www.perugo/Destino#", RdfType, Iri(ExDestino)) in Contribution(user, map["slug" := Str("")], host)
    ensures Triple(user, ExMostroInteresEn, Iri("https://www.perugo/Destino#")) in Contribution(user, map["slug" := Str("")], host)
  {
    assert DestinoUri("") == DestinoPrefix;
  }

  /** The row `{"nombre": "NoSlug"}` adds nothing: the graph is the user node alone. */
  lemma NoSlugExample(host: Host)
    ensures UserTriples("Ana") + RowsTriples(UserUri("Ana"), [map["nombre" := Str("NoSlug")]], host)
         == UserTriples("Ana")
  {
    var rows: seq<Row> := [map["nombre" := Str("NoSlug")]];
    assert rows[..0] == [];
  }

  const CuscoTours: string := "[{\"nombre\": \"City Tour\", \"precio\": 20}]"

  function CuscoRow(): Row
  {
    map["slug" := Str("cusco"), "nombre" := Str("Cusco"), "tours" := Str(CuscoTours)]
  }

  function CuscoTour(): map<string, Value>
  {
    map["nombre" := Str("City Tour"), "precio" := Int(20)]
  }

  lemma CuscoTourNode(host: Host)
    ensures TourUri(CuscoTour(), host) == TourPrefix + "City_Tour"
  {
    assert TourId(CuscoTour()) == Str("City Tour");
    assert SpacesToUnderscores("City Tour") == "City_Tour";
    UrlQuote.QuoteKeepsSafeText("City_Tour");
  }

  lemma CuscoToursAdded(host: Host, dest: string)
    requires host.jsonLoads(CuscoTours) == Some(List([Dict(CuscoTour())]))
    ensures ToursAdded(dest, CuscoRow(), host) == TourTriples(dest, CuscoTour(), host)
  {
    var ts := TourElements(CuscoRow(), host);
    assert HasTours(CuscoRow());
    assert ts == [Dict(CuscoTour())];
    assert FirstNonDict(ts) == 1;
    ToursUnionStep(dest, ts, 0, host);
    assert ts[..1] == ts && ts[..0] == [];
  }

  lemma CuscoContribution(user: string, host: Host)
    requires host.jsonLoads(CuscoTours) == Some(List([Dict(CuscoTour())]))
    ensures RowsTriples(user, [CuscoRow()], host)
         == DestinoOwnTriples(user, DestinoPrefix + "cusco", CuscoRow())
            + TourTriples(DestinoPrefix + "cusco", CuscoTour(), host)
  {
    var rows := [CuscoRow()];
    var dest := DestinoPrefix + "cusco";
    CuscoDestino();
    CuscoToursAdded(host, dest);
    ContributionOfStringSlug(user, CuscoRow(), host);
    RowsTriplesStep(user, rows, 0, host);
    assert rows[..1] == rows && rows[..0] == [];
  }

  lemma CuscoDestino()
    ensures "slug" in CuscoRow() && CuscoRow()["slug"] == Str("cusco")
    ensures DestinoUri("cusco") == DestinoPrefix + "cusco"
  {
    UrlQuote.QuoteKeepsSafeText("cusco");
  }

  /**
   * User "Ana" and the row `{slug: "cusco", nombre: "Cusco", tours: '[...]'}` whose JSON
   * holds one tour named "City Tour" priced 20.
   */
  lemma CuscoExample(host: Host)
    requires host.jsonLoads(CuscoTours) == Some(List([Dict(CuscoTour())]))
    ensures var g := UserTriples("Ana") + RowsTriples(UserUri("Ana"), [CuscoRow()], host);
      var user := UserPrefix + "Ana";
      var dest := DestinoPrefix + "cusco";
      var tour := TourPrefix + "City_Tour";
      && Triple(user, RdfType, Iri(FoafPerson)) in g
      && Triple(user, FoafNick, Lit(Str("Ana"))) in g
      && Triple(dest, RdfType, Iri(ExDestino)) in g
      && Triple(dest, RdfsLabel, Lit(Str("Cusco"))) in g
      && Triple(user, ExMostroInteresEn, Iri(dest)) in g
      && Triple(tour, RdfType, Iri(ExTour)) in g
      && Triple(tour, RdfsLabel, Lit(Str("City Tour"))) in g
      && Triple(tour, ExPriceUsd, Lit(Int(20))) in g
      && Triple(dest, ExOfrece, Iri(tour)) in g
  {
    var dest := DestinoPrefix + "cusco";
    UrlQuote.QuoteKeepsSafeText("Ana");
    assert UserUri("Ana") == UserPrefix + "Ana";
    CuscoContribution(UserUri("Ana"), host);
    CuscoTourNode(host);
    assert Triple(dest, RdfsLabel, Lit(Str("Cusco"))) in FieldTriple(dest, CuscoRow(), "nombre");
  }
}
