/**
 * generate_rdf.py: destination rows projected into an RDF graph rooted at a user node.
 * The graph is a set of triples that the builder grows in place; the functions below
 * say which triples one row contributes, and the methods replay the source's steps
 * against them.
 */
module GenerateRdf {
  import opened Wrappers
  import opened PyValue
  import UrlQuote

  /** A database row: column name to value. */
  type Row = map<string, Value>

  /** The object of a triple: an IRI or a literal wrapping a Python value. */
  datatype Term = Iri(iri: string) | Lit(value: Value)

  /** An RDF statement; subjects and predicates are always IRIs. */
  datatype Triple = Triple(subject: string, pred: string, obj: Term)

  /**
   * The library calls the builder makes that this model does not define: `json.loads`
   * (None where it raises) and the `repr` text that `str()` gives a list or a dict.
   */
  datatype Host = Host(jsonLoads: string -> Option<Value>, repr: Value -> string)

  // ---------------------------------------------------------------------------
  // Vocabulary
  // ---------------------------------------------------------------------------

  /** The `EX` namespace. */
  const Ex: string := "https://www.perugo/"

  const RdfType: string := "http://www.w3.org/1999/02/22-rdf-syntax-ns#type"
  const RdfsLabel: string := "http://www.w3.org/2000/01/rdf-schema#label"
  const FoafPerson: string := "http://xmlns.com/foaf/0.1/Person"
  const FoafNick: string := "http://xmlns.com/foaf/0.1/nick"

  const ExDestino: string := "https://www.perugo/Destino"
  const ExTour: string := "https://www.perugo/Tour"
  const ExMostroInteresEn: string := "https://www.perugo/mostro_interes_en"
  const ExOfrece: string := "https://www.perugo/ofrece"
  const ExPriceUsd: string := "https://www.perugo/priceUSD"
  const ExOperator: string := "https://www.perugo/operator"

  /** The name `build_graph_from_db` uses when the caller gives none. */
  const DefaultUser: string := "Usuario123"

  const UserPrefix: string := "https://www.perugo/Usuario#"
  const DestinoPrefix: string := "https://www.perugo/Destino#"
  const TourPrefix: string := "https://www.perugo/Tour#"

  /** The optional destination columns, each copied into one literal triple when present. */
  const DestinoFields: seq<string> := ["nombre", "ubicacion", "tipo", "precio", "duracion", "descripcion"]

  /** `nombre` becomes the `rdfs:label`; every other field has the predicate of its own name in `EX`. */
  function FieldPredicate(key: string): string
  {
    if key == "nombre" then RdfsLabel else Ex + key
  }

  // ---------------------------------------------------------------------------
  // What each step adds
  // ---------------------------------------------------------------------------

  function UserUri(name: string): string
  {
    UserPrefix + UrlQuote.Quote(name)
  }

  /** The two triples `_init_graph` puts in a new graph. */
  function UserTriples(name: string): set<Triple>
  {
    {Triple(UserUri(name), RdfType, Iri(FoafPerson)),
     Triple(UserUri(name), FoafNick, Lit(Str(name)))}
  }

  function DestinoUri(slug: string): string
  {
    DestinoPrefix + UrlQuote.Quote(slug)
  }

  /** The literal triple for one optional column, if the row has that column. */
  function FieldTriple(dest: string, row: Row, key: string): set<Triple>
  {
    if key in row then {Triple(dest, FieldPredicate(key), Lit(row[key]))} else {}
  }

  /** What the six `if "..." in destino` tests add. */
  function FieldTriples(dest: string, row: Row): set<Triple>
  {
    FieldTriple(dest, row, "nombre") + FieldTriple(dest, row, "ubicacion")
      + FieldTriple(dest, row, "tipo") + FieldTriple(dest, row, "precio")
      + FieldTriple(dest, row, "duracion") + FieldTriple(dest, row, "descripcion")
  }

  /** A destination's own triples: its type, its fields and the user's interest edge. */
  function DestinoOwnTriples(user: string, dest: string, row: Row): set<Triple>
  {
    {Triple(dest, RdfType, Iri(ExDestino))} + FieldTriples(dest, row)
      + {Triple(user, ExMostroInteresEn, Iri(dest))}
  }

  /** `t.get("id") or t.get("nombre", "tour")` */
  function TourId(t: map<string, Value>): Value
  {
    if "id" in t && Truthy(t["id"]) then t["id"]
    else if "nombre" in t then t["nombre"]
    else Str("tour")
  }

  /** `quote(str(tour_id).replace(" ", "_"))` */
  function TourFragment(t: map<string, Value>, host: Host): string
  {
    UrlQuote.Quote(SpacesToUnderscores(ToStr(TourId(t), host.repr)))
  }

  function TourUri(t: map<string, Value>, host: Host): string
  {
    TourPrefix + TourFragment(t, host)
  }

  /** `t.get("nombre", "Tour sin nombre")` */
  function TourLabel(t: map<string, Value>): Value
  {
    if "nombre" in t then t["nombre"] else Str("Tour sin nombre")
  }

  /** What one pass of the tour loop adds for the tour `t` of destination `dest`. */
  function TourTriples(dest: string, t: map<string, Value>, host: Host): set<Triple>
  {
    var tour := TourUri(t, host);
    {Triple(tour, RdfType, Iri(ExTour)), Triple(tour, RdfsLabel, Lit(TourLabel(t)))}
      + (if "precio" in t then {Triple(tour, ExPriceUsd, Lit(t["precio"]))} else {})
      + (if "operador" in t then {Triple(tour, ExOperator, Lit(t["operador"]))} else {})
      + {Triple(dest, ExOfrece, Iri(tour))}
  }

  /** Growing a graph by `b` and then by `c` is growing it by `b + c`. */
  lemma UnionAssociates(a: set<Triple>, b: set<Triple>, c: set<Triple>)
    ensures a + b + c == a + (b + c)
  {
  }

  /** The union of TourTriples over the dicts among `ts`. */
  function ToursUnion(dest: string, ts: seq<Value>, host: Host): set<Triple>
    decreases |ts|
  {
    if ts == [] then {}
    else
      var last := ts[|ts| - 1];
      ToursUnion(dest, ts[..|ts| - 1], host)
        + (if last.Dict? then TourTriples(dest, last.fields, host) else {})
  }

  lemma ToursUnionStep(dest: string, ts: seq<Value>, i: nat, host: Host)
    requires i < |ts| && ts[i].Dict?
    ensures ToursUnion(dest, ts[..i + 1], host)
         == ToursUnion(dest, ts[..i], host) + TourTriples(dest, ts[i].fields, host)
  {
    assert ts[..i + 1][..i] == ts[..i];
  }

  /** The graph after one more tour holds the union over one more element. */
  lemma ToursGrow(base: set<Triple>, before: set<Triple>, after: set<Triple>,
                  dest: string, ts: seq<Value>, i: nat, host: Host)
    requires i < |ts| && ts[i].Dict?
    requires before == base + ToursUnion(dest, ts[..i], host)
    requires after == before + TourTriples(dest, ts[i].fields, host)
    ensures after == base + ToursUnion(dest, ts[..i + 1], host)
  {
    ToursUnionStep(dest, ts, i, host);
    UnionAssociates(base, ToursUnion(dest, ts[..i], host), TourTriples(dest, ts[i].fields, host));
  }

  /** The index of the first element that is not a dict, or the length when all are. */
  function FirstNonDict(ts: seq<Value>): (k: nat)
    ensures k <= |ts|
    ensures forall j :: 0 <= j < k ==> ts[j].Dict?
    ensures k < |ts| ==> !ts[k].Dict?
    decreases |ts|
  {
    if ts == [] || !ts[0].Dict? then 0 else 1 + FirstNonDict(ts[1..])
  }

  /** True when the row's `tours` value passes `if destino.get("tours"):`. */
  predicate HasTours(row: Row)
  {
    "tours" in row && Truthy(row["tours"])
  }

  /**
   * What the tour loop runs over: a string is first given to `json.loads`, any other
   * value is iterated as it is. Empty when the tours are absent or falsy, when
   * `json.loads` raises and when the iteration itself raises.
   */
  function TourElements(row: Row, host: Host): seq<Value>
  {
    if !HasTours(row) then []
    else
      var v := row["tours"];
      var loaded := if v.Str? then host.jsonLoads(v.s) else Some(v);
      match loaded
      case None => []
      case Some(parsed) =>
        match Elements(parsed)
        case None => []
        case Some(ts) => ts
  }

  /** The tour triples of a row: those of every tour before the first element that raises. */
  function ToursAdded(dest: string, row: Row, host: Host): set<Triple>
  {
    var ts := TourElements(row, host);
    ToursUnion(dest, ts[..FirstNonDict(ts)], host)
  }

  /** True when `quote(destino["slug"])` raises TypeError, which nothing in the builder catches. */
  predicate SlugRaises(row: Row)
  {
    "slug" in row && !row["slug"].Str?
  }

  /** How `_add_destino_and_tours_to_graph` ends for one row. */
  datatype Step = Skipped | Raised | Added(triples: set<Triple>)

  function DestinoStep(user: string, row: Row, host: Host): Step
  {
    if "slug" !in row then Skipped
    else if !row["slug"].Str? then Raised
    else
      var dest := DestinoUri(row["slug"].s);
      Added(DestinoOwnTriples(user, dest, row) + ToursAdded(dest, row, host))
  }

  /** The triples one row adds to the graph: none when it is skipped or raises. */
  function Contribution(user: string, row: Row, host: Host): set<Triple>
  {
    match DestinoStep(user, row, host)
    case Added(ts) => ts
    case _ => {}
  }

  /** The union of the contributions of `rows`. */
  function RowsTriples(user: string, rows: seq<Row>, host: Host): set<Triple>
    decreases |rows|
  {
    if rows == [] then {}
    else RowsTriples(user, rows[..|rows| - 1], host) + Contribution(user, rows[|rows| - 1], host)
  }

  /** True when the slug of some row is not a string. */
  predicate AnySlugRaises(rows: seq<Row>)
    decreases |rows|
  {
    rows != [] && (AnySlugRaises(rows[..|rows| - 1]) || SlugRaises(rows[|rows| - 1]))
  }

  lemma {:induction false} AnySlugRaisesWitness(rows: seq<Row>)
    ensures AnySlugRaises(rows) <==> exists i :: 0 <= i < |rows| && SlugRaises(rows[i])
    decreases |rows|
  {
    if rows != [] {
      var front := rows[..|rows| - 1];
      AnySlugRaisesWitness(front);
      assert forall i :: 0 <= i < |front| ==> front[i] == rows[i];
    }
  }

  lemma RowsTriplesStep(user: string, rows: seq<Row>, i: nat, host: Host)
    requires i < |rows|
    ensures RowsTriples(user, rows[..i + 1], host)
         == RowsTriples(user, rows[..i], host) + Contribution(user, rows[i], host)
  {
    assert rows[..i + 1][..i] == rows[..i];
  }

  // ---------------------------------------------------------------------------
  // The graph and the steps that grow it
  // ---------------------------------------------------------------------------

  /** An rdflib `Graph`: a set of triples, grown by `add`. */
  class Graph {
    var triples: set<Triple>

    constructor ()
      ensures triples == {}
    {
      triples := {};
    }

    /** `g.add(t)`: adding a triple already present leaves the graph as it was. */
    method Add(t: Triple)
      modifies this
      ensures triples == old(triples) + {t}
    {
      triples := triples + {t};
    }
  }

  /** `_init_graph(usuario_nombre)`: a new graph with the user node, and the user's IRI. */
  method InitGraph(name: string) returns (g: Graph, userUri: string)
    ensures fresh(g)
    ensures g.triples == UserTriples(name)
    ensures userUri == UserUri(name)
  {
    g := new Graph();
    userUri := UserUri(name);
    g.Add(Triple(userUri, RdfType, Iri(FoafPerson)));
    g.Add(Triple(userUri, FoafNick, Lit(Str(name))));
  }

  /** Lines 81-93 for one tour. */
  method AddTour(g: Graph, dest: string, t: map<string, Value>, host: Host)
    modifies g
    ensures g.triples == old(g.triples) + TourTriples(dest, t, host)
  {
    var tourId := TourId(t);
    var tourRef := TourPrefix + UrlQuote.Quote(SpacesToUnderscores(ToStr(tourId, host.repr)));
    g.Add(Triple(tourRef, RdfType, Iri(ExTour)));
    g.Add(Triple(tourRef, RdfsLabel, Lit(if "nombre" in t then t["nombre"] else Str("Tour sin nombre"))));
    if "precio" in t {
      g.Add(Triple(tourRef, ExPriceUsd, Lit(t["precio"])));
    }
    if "operador" in t {
      g.Add(Triple(tourRef, ExOperator, Lit(t["operador"])));
    }
    g.Add(Triple(dest, ExOfrece, Iri(tourRef)));
  }

  /** One `if "<key>" in destino: g.add(...)` of lines 62-73. */
  method AddField(g: Graph, dest: string, row: Row, key: string)
    modifies g
    ensures g.triples == old(g.triples) + FieldTriple(dest, row, key)
  {
    if key in row {
      g.Add(Triple(dest, FieldPredicate(key), Lit(row[key])));
    }
  }

  /** Lines 61-75: the destination's own triples, once its IRI is known. */
  method AddDestino(g: Graph, userUri: string, dest: string, row: Row)
    modifies g
    ensures g.triples == old(g.triples) + DestinoOwnTriples(userUri, dest, row)
  {
    g.Add(Triple(dest, RdfType, Iri(ExDestino)));
    AddField(g, dest, row, "nombre");
    AddField(g, dest, row, "ubicacion");
    AddField(g, dest, row, "tipo");
    AddField(g, dest, row, "precio");
    AddField(g, dest, row, "duracion");
    AddField(g, dest, row, "descripcion");
    g.Add(Triple(userUri, ExMostroInteresEn, Iri(dest)));
    DestinoOwnTriplesInOrder(old(g.triples), userUri, dest, row);
  }

  /** The triples of lines 61-75 in the order the source adds them. */
  lemma DestinoOwnTriplesInOrder(start: set<Triple>, userUri: string, dest: string, row: Row)
    ensures start + {Triple(dest, RdfType, Iri(ExDestino))}
      + FieldTriple(dest, row, "nombre") + FieldTriple(dest, row, "ubicacion")
      + FieldTriple(dest, row, "tipo") + FieldTriple(dest, row, "precio")
      + FieldTriple(dest, row, "duracion") + FieldTriple(dest, row, "descripcion")
      + {Triple(userUri, ExMostroInteresEn, Iri(dest))}
      == start + DestinoOwnTriples(userUri, dest, row)
  {
  }

  /**
   * Lines 77-79: decides what the tour loop runs over. An empty result stands for
   * falsy tours and for the exceptions of `json.loads` and of iteration, which the
   * handler of line 94 catches. The method takes the source's steps one statement
   * at a time; `TourElements` is the specification it is proved against.
   */
  method LoadTours(row: Row, host: Host) returns (ts: seq<Value>)
    ensures ts == TourElements(row, host)
  {
    ts := [];
    if "tours" in row && Truthy(row["tours"]) {
      var v := row["tours"];
      var loaded := if v.Str? then host.jsonLoads(v.s) else Some(v);
      if loaded.Some? {
        var elems := Elements(loaded.value);
        if elems.Some? {
          ts := elems.value;
        }
      }
    }
  }

  /** Lines 80-93: one pass per tour, until an element that is not a dict raises. */
  method AddTours(g: Graph, dest: string, ts: seq<Value>, host: Host)
    modifies g
    ensures g.triples == old(g.triples) + ToursUnion(dest, ts[..FirstNonDict(ts)], host)
  {
    ghost var base := g.triples;
    var i := 0;
    while i < |ts|
      invariant 0 <= i <= |ts|
      invariant i <= FirstNonDict(ts)
      invariant g.triples == base + ToursUnion(dest, ts[..i], host)
    {
      if !ts[i].Dict? {
        // `t.get` raises AttributeError: the remaining tours are abandoned
        break;
      }
      ghost var before := g.triples;
      AddTour(g, dest, ts[i].fields, host);
      ToursGrow(base, before, g.triples, dest, ts, i, host);
      i := i + 1;
    }
  }

  /**
   * `_add_destino_and_tours_to_graph(g, usuario_uri, destino)`. `raised` is true when it
   * ends with the TypeError of a slug that is not a string; the graph is then unchanged.
   */
  method AddDestinoAndTours(g: Graph, userUri: string, row: Row, host: Host) returns (raised: bool)
    modifies g
    ensures raised <==> SlugRaises(row)
    ensures g.triples == old(g.triples) + Contribution(userUri, row, host)
  {
    if "slug" !in row {
      // the KeyError handler: the row is skipped
      return false;
    }
    if !row["slug"].Str? {
      return true;
    }
    var dest := DestinoPrefix + UrlQuote.Quote(row["slug"].s);
    AddDestino(g, userUri, dest, row);
    var ts := LoadTours(row, host);
    AddTours(g, dest, ts, host);
    raised := false;
  }

  /**
   * The row loop of `build_graph_from_db(usuario_nombre)`, with the rows that the
   * database query would return given as `rows`. `raised` is true when some row's
   * slug is not a string: the exception escapes and no graph is returned.
   */
  method BuildGraphFromRows(name: string, rows: seq<Row>, host: Host) returns (g: Graph, raised: bool)
    ensures fresh(g)
    ensures raised <==> exists i :: 0 <= i < |rows| && SlugRaises(rows[i])
    ensures !raised ==> g.triples == UserTriples(name) + RowsTriples(UserUri(name), rows, host)
  {
    var userUri;
    g, userUri := InitGraph(name);
    ghost var init := g.triples;
    raised := false;
    for i := 0 to |rows|
      invariant !AnySlugRaises(rows[..i])
      invariant g.triples == init + RowsTriples(userUri, rows[..i], host)
    {
      raised := AddDestinoAndTours(g, userUri, rows[i], host);
      if raised {
        return;
      }
      assert rows[..i + 1][..i] == rows[..i];
      RowsTriplesStep(userUri, rows, i, host);
      UnionAssociates(init, RowsTriples(userUri, rows[..i], host), Contribution(userUri, rows[i], host));
    }
    assert rows[..|rows|] == rows;
    AnySlugRaisesWitness(rows);
  }
}
