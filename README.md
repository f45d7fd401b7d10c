# PeruGo backend: RDF projection and speech-request construction

This project models two routines of the PeruGo Flask backend and proves what they
guarantee.

- **RDF projection** (`generate_rdf.py`). `_init_graph` creates an rdflib graph holding
  the user node. `_add_destino_and_tours_to_graph` adds one destination row and its
  embedded tour list to that graph in place. `build_graph_from_db` folds that step
  over the destination rows. The graph is a class `GenerateRdf.Graph` whose only field
  is a set of triples, grown by `Add`. Each step is a method with a loop where the
  source has one. Each method is proved against a function that states the triples
  the step adds (`UserTriples`, `DestinoOwnTriples`, `TourTriples`, `ToursUnion`,
  `Contribution`, `RowsTriples`). The lemmas in `GenerateRdfProperties` prove what
  those functions promise.
- **Speech-to-text payload** (`app.py`, `google_stt_raw_bytes`). An ordered chain of
  magic-byte tests over the first 12 bytes picks one of four encodings. A request
  with a fixed configuration and the whole buffer in base 64 is then assembled. This
  part is pure, so it is functions plus lemmas.

Three library calls are modelled concretely, because the properties depend on them:

- `base64.b64encode`, as section 4 of RFC 4648, with a decoder and a round-trip proof.
- `urllib.parse.quote` with its default `safe="/"`. It follows sections 2.1 and 2.3
  of RFC 3986 and encodes non-ASCII text as UTF-8 per RFC 3629. A strict decoder and
  a round-trip proof come with it.
- Python's `str()` and `for` iteration over the values a row can hold.

`json.loads` and the `repr` of lists and dicts are given as parameters.
`GenerateRdf.Host` carries these two functions.

Files:

- `wrappers.dfy`: `Option`, `byte`, `StartsWith`.
- `base64.dfy`: the base 64 encoder and decoder.
- `url_quote.dfy`: `quote`, UTF-8, `Unquote`.
- `py_value.dfy`: Python values, truthiness, `str()` and iteration.
- `generate_rdf.dfy`: the graph class, the builder's methods and their specification functions.
- `generate_rdf_properties.dfy`: the properties of those functions.
- `stt_request.dfy`: detection and the request.

Behaviour of the code that is easy to misread, modelled as written:

- Only a *missing* `slug` key skips a row (the `KeyError` handler).
  - An empty slug is processed. Its node is `EX Destino#` itself (`EmptySlugNotSkipped`).
  - A slug that is not a string makes `quote` raise `TypeError`. The handler at line 55
    catches only `KeyError`, so nothing in the builder catches it, and building the
    graph fails.
- `b'WAVE' in header` accepts WAVE anywhere in the first 12 bytes. After `RIFF` that
  means starting at any of bytes 4 to 8, not only at byte 8 (`DetectLinear16`).
- A tour element that is not a dict stops the tour loop, and so does a `json.loads`
  failure. Every triple added before the failure stays, including earlier tours
  (`ToursStopAtFirstFailure`).
- `google_stt_raw_bytes` takes no file name and has no `FF FB` or `ID3` test for MP3.
  It always sends 16000 Hz, whatever the encoding (`RequestShape`), and builds one
  request per buffer with no retry.

## Model

| member | source | states |
|---|---|---|
| GenerateRdf.Graph.constructor | generate_rdf.py:40 | a new graph holds no triples |
| GenerateRdf.Graph.Add | generate_rdf.py:46 | `g.add` adds the triple to the set; adding an existing triple leaves the graph as it was |
| GenerateRdf.InitGraph | generate_rdf.py:38-48 | returns a fresh graph holding exactly the user's two triples, and the user IRI `EX Usuario#` + quote(name) |
| GenerateRdf.AddField | generate_rdf.py:62-73 | one optional column adds its literal triple when the key is present, and nothing otherwise |
| GenerateRdf.AddDestino | generate_rdf.py:59-75 | the graph grows by exactly the destination's type, its present fields and the user's interest edge |
| GenerateRdf.TourElements | generate_rdf.py:77-79 | what the tour loop runs over; `TourElementsCases` and `MalformedToursKeepDestino` state its cases |
| GenerateRdf.TourId | generate_rdf.py:81 | `t.get("id") or t.get("nombre", "tour")`; `TourIdNoneName`, `TourIdDefault` and `TourIdInt` state its fallbacks |
| GenerateRdf.TourLabel | generate_rdf.py:86 | `t.get("nombre", "Tour sin nombre")`; `TourTriplesShape` states that each tour gets this label |
| GenerateRdf.LoadTours | generate_rdf.py:77-79 | the loop runs over nothing for falsy tours; otherwise over the parsed JSON of a string, or the value itself; a parse or iteration failure means no tours |
| GenerateRdf.AddTour | generate_rdf.py:81-93 | one tour adds its type, label, optional price and operator, and the `ex:ofrece` edge, and nothing else |
| GenerateRdf.FirstNonDict | generate_rdf.py:80-81 | the length of the leading run of dict elements: all before it are dicts, the element at it is not |
| GenerateRdf.AddTours | generate_rdf.py:78-95 | the loop adds the triples of every tour before the first non-dict element and none after it |
| GenerateRdf.AddDestinoAndTours | generate_rdf.py:51-95 | raises exactly when the slug is present but not a string; the graph grows by exactly the row's contribution: none for a missing slug or a raise, otherwise the destination's own triples and its processed tours |
| GenerateRdf.BuildGraphFromRows | generate_rdf.py:98-116 | raises exactly when some row's slug is not a string; otherwise the graph is the user node united with every row's contribution |
| GenerateRdfProperties.InitGraphUserNode | generate_rdf.py:38-48 | the new graph has exactly two triples, both about the user IRI: `rdf:type foaf:Person` and `foaf:nick` with the literal name |
| GenerateRdfProperties.DefaultUserNode | generate_rdf.py:38 | the default user name gives the node `EX Usuario#Usuario123` |
| GenerateRdfProperties.IrisRecoverNames | generate_rdf.py:45-59 | stripping the prefix and unquoting a user or destination IRI recovers the name or the slug |
| GenerateRdfProperties.DestinoUriInjective | generate_rdf.py:59 | different slugs give different destination nodes |
| GenerateRdfProperties.KindsDiffer | generate_rdf.py:45-83 | a user IRI, a destination IRI and a tour IRI never coincide |
| GenerateRdfProperties.FieldPredicatesDistinct | generate_rdf.py:61-75 | the six field predicates are pairwise distinct, and none is `rdf:type`, `ex:mostro_interes_en` or `ex:ofrece` |
| GenerateRdfProperties.DestinoStepCases | generate_rdf.py:53-57 | a row is skipped exactly when `slug` is missing; it raises exactly when the slug is not a string; every string slug, the empty one included, is processed; a skipped or raising row contributes nothing |
| GenerateRdfProperties.EmptySlugNotSkipped | generate_rdf.py:54-59 | a row whose slug is `""` gets a destination node `EX Destino#` and the interest edge |
| GenerateRdfProperties.ContributionOfStringSlug | generate_rdf.py:59-95 | a row with a string slug contributes exactly its destination's own triples plus the triples of the tours processed for it |
| GenerateRdfProperties.DestinoFieldLiteral | generate_rdf.py:59-75 | with a string slug, the row gets `rdf:type ex:Destino` and the interest edge; for each of the six keys the triples with that key's predicate about the destination are exactly one literal triple if the key is present, and none if it is absent |
| GenerateRdfProperties.TourElementsCases | generate_rdf.py:77-79 | no tours unless `tours` is truthy; a list is iterated as it is; a string is `json.loads`-parsed; an int or a bool yields nothing |
| GenerateRdfProperties.MalformedToursKeepDestino | generate_rdf.py:77-95 | tours text that `json.loads` rejects leaves the row's contribution equal to the destination's own triples |
| GenerateRdfProperties.ToursUnionMembership | generate_rdf.py:80-93 | a triple of a run of dict tours is a triple of one of them, and the reverse |
| GenerateRdfProperties.ToursStopAtFirstFailure | generate_rdf.py:78-95 | a tour triple is added exactly when it belongs to some tour before the first non-dict element |
| GenerateRdfProperties.TourTripleAboutDestino | generate_rdf.py:83-93 | the only triple of a tour whose subject is the destination is its `ex:ofrece` edge |
| GenerateRdfProperties.TourTriplesShape | generate_rdf.py:85-93 | a tour gets its type, its label and exactly one `ex:ofrece` edge from the destination; `ex:priceUSD` exists exactly when `precio` is a key and `ex:operator` exactly when `operador` is |
| GenerateRdfProperties.OffersEdges | generate_rdf.py:80-93 | the `ex:ofrece` edges out of a destination lead to exactly the nodes of its processed tours |
| GenerateRdfProperties.TourNodesMerge | generate_rdf.py:81-83 | two tours share a node exactly when their ids, as text with spaces turned into underscores, are equal |
| GenerateRdfProperties.SpaceAndUnderscoreMerge | generate_rdf.py:82 | the id `"City Tour"` and the name `"City_Tour"` give one tour node |
| GenerateRdfProperties.TourIdNoneName | generate_rdf.py:81-82 | a missing or falsy id falls back to the name even when the name is None, whose text `None` becomes the fragment |
| GenerateRdfProperties.TourIdDefault | generate_rdf.py:81-83 | a missing or falsy id and no name give the node `EX Tour#tour` |
| GenerateRdfProperties.TourIdInt | generate_rdf.py:81-83 | a non-zero int id gives the node `EX Tour#` + str(id); the id 0 is falsy and falls back, as `TourIdDefault` states |
| GenerateRdfProperties.IntIdsMerge | generate_rdf.py:81-83 | tours with non-zero int ids share a node exactly when the ids are equal |
| GenerateRdfProperties.RowsTriplesAppend | generate_rdf.py:111-112 | the triples of two consecutive runs of rows are the union of each run's |
| GenerateRdfProperties.RowsTriplesMembership | generate_rdf.py:111-112 | a triple comes from the rows exactly when some row contributes it |
| GenerateRdfProperties.RowsOrderIrrelevant | generate_rdf.py:111-112 | rows with the same members, in any order and with any repetition, give the same graph |
| GenerateRdfProperties.SluglessRowIgnored | generate_rdf.py:53-57 | removing a row without a slug from anywhere in the rows leaves the graph unchanged |
| GenerateRdfProperties.BuiltGraphContents | generate_rdf.py:100-116 | a triple is in the final graph exactly when it is a user triple or some row contributes it |
| GenerateRdfProperties.NoSlugExample | generate_rdf.py:53-57 | the single row `{"nombre": "NoSlug"}` leaves only the user node |
| GenerateRdfProperties.CuscoToursAdded | generate_rdf.py:77-93 | the cusco row's tours text parses to one tour, whose triples are the tours added |
| GenerateRdfProperties.CuscoExample | generate_rdf.py:51-95 | user Ana and the cusco row with one tour "City Tour" at 20 give the user node, the destination with its label and the interest edge, and the tour node `Tour#City_Tour` with label, price and `ex:ofrece` edge |
| PyValue.NatToString | generate_rdf.py:82 | `str()` of a non-negative int is a non-empty run of decimal digits with no leading zero |
| PyValue.NatToStringValue | generate_rdf.py:82 | the digits `str(n)` writes denote `n`, so `DigitsValue` is its inverse |
| PyValue.NatToStringInjective | generate_rdf.py:82 | different non-negative ints print differently |
| PyValue.IntToString | generate_rdf.py:82 | `str()` of an int is non-empty, starts with `-` exactly when the int is negative, and is digits after that |
| PyValue.IntToStringInjective | generate_rdf.py:82 | different ints print differently |
| PyValue.SpacesToUnderscores | generate_rdf.py:82 | `replace(" ", "_")` keeps the length, turns every space into `_`, and keeps every other character |
| PyValue.Truthy | generate_rdf.py:77-81 | Python truth testing, used by `if destino.get("tours")` and by `t.get("id") or ...`; `TourElementsCases` and `TourIdNoneName` state its effect |
| PyValue.ToStr | generate_rdf.py:82 | `str()` of a row value; `IntToStringInjective` and `IntIdsMerge` state what it keeps apart, `TourIdNoneName` what it prints for None |
| PyValue.Elements | generate_rdf.py:80 | `for t in v` runs over a list's items and a string's one-character strings; it raises before its body for an int, a bool, None or a non-empty dict |
| UrlQuote.Utf8RoundTrip | generate_rdf.py:54 | the UTF-8 octets of a character announce their own length and decode back to it |
| UrlQuote.Quote | generate_rdf.py:54 | `quote`; `QuoteKeepsSafeText`, `QuoteOutputIsSafe`, `UnquoteQuote`, `QuoteInjective` and `QuoteVectors` state what it promises |
| UrlQuote.HexDigitIsUpper | generate_rdf.py:54 | the hexadecimal digits of a triplet are `0`-`9` and upper-case `A`-`F` |
| UrlQuote.QuoteVectors | generate_rdf.py:45 | a space becomes `%20`, and `é` becomes `%C3%A9` |
| UrlQuote.Percent | generate_rdf.py:54 | each octet becomes a three-character `%XX` triplet, and the triplets use only safe characters and `%` |
| UrlQuote.QuoteKeepsSafeText | generate_rdf.py:54 | text of letters, digits, `-._~` and `/` passes through `quote` unchanged |
| UrlQuote.QuoteOutputIsSafe | generate_rdf.py:54 | everything `quote` writes is a safe character or a `%` |
| UrlQuote.UnquoteQuote | generate_rdf.py:54 | unquoting what `quote` wrote gives back the original text |
| UrlQuote.QuoteInjective | generate_rdf.py:45 | `quote` never maps two texts to one |
| Base64.Encode | app.py:48 | the encoding has 4 characters per started group of 3 bytes, all from the base 64 alphabet or `=` |
| Base64.DigitIsAlphabet | app.py:48 | the character for each 6-bit value is the one at that index of the alphabet of RFC 4648, in its order |
| Base64.EncodeVectors | app.py:48 | the encoder gives the test vectors of section 10 of RFC 4648, `""` to `Zm9vYmFy` |
| Base64.DecodeEncode | app.py:48 | decoding the encoding gives back the bytes |
| Base64.EncodeInjective | app.py:48 | different buffers give different encodings |
| SttRequest.Header | app.py:31 | `audio_bytes[:12]` is the first 12 bytes, or the whole of a shorter buffer |
| SttRequest.DetectEncoding | app.py:31-43 | the chain of tests, first match wins; `DetectLinear16`, `DetectAmrWb`, `DetectWebmOpus` and `DetectMp3` state each outcome exactly |
| SttRequest.BuildRequest | app.py:48-60 | the payload; `RequestShape` and `RequestDeterminesAudio` state its fields and that it loses no audio |
| SttRequest.NameInjective | app.py:52 | different encodings are sent under different names |
| SttRequest.Contains | app.py:34 | `needle in haystack` holds exactly when the needle occurs at some offset |
| SttRequest.HeaderPrefix | app.py:31-38 | a prefix test of at most 12 bytes on the header agrees with the same test on the whole buffer |
| SttRequest.DetectLinear16 | app.py:31-35 | LINEAR16 exactly when the buffer starts with RIFF and WAVE starts at one of bytes 4 to 8 |
| SttRequest.DetectAmrWb | app.py:36-37 | AMR_WB exactly when the buffer starts with `#!AMR-WB` |
| SttRequest.DetectWebmOpus | app.py:38-39 | WEBM_OPUS exactly when the buffer starts with `1A 45 DF A3` |
| SttRequest.DetectMp3 | app.py:40-43 | MP3 exactly when none of the three tests matches |
| SttRequest.ShortBufferIsMp3 | app.py:31-43 | a buffer shorter than 4 bytes, the empty one included, is sent as MP3 |
| SttRequest.DetectIgnoresTail | app.py:31 | bytes after the first 12 never change the encoding |
| SttRequest.DetectSameHeader | app.py:31 | two buffers that agree on their first 12 bytes get the same encoding |
| SttRequest.RequestShape | app.py:48-60 | whatever the audio, the request has the detected encoding's name, 16000 Hz, `es-PE` and automatic punctuation, and its content decodes to the entire buffer |
| SttRequest.RequestDeterminesAudio | app.py:48-59 | two buffers give the same request only when they are equal |
| SttRequest.WavExample | app.py:34-35 | the bytes `RIFF____WAVEfmt ` are sent with encoding `LINEAR16` at 16000 Hz |

## Left out

- Flask routes, `Response`, `jsonify`, CORS and request parsing: HTTP plumbing outside these routines.
- The MySQL connection, its credentials and the `SELECT` of `build_graph_from_db`: I/O. The rows are a parameter, and a failed connection, which returns the bare user graph, is not modelled.
- `build_graph_for_destino_slug` (generate_rdf.py:119-139): it repeats the same two steps for one row fetched by slug. Only its database lookup is new, and that is I/O.
- `g.bind` and Turtle serialization: rdflib output formatting. The graph is a set of triples.
- rdflib `Literal` datatypes and lexical forms: a literal carries the Python value it was built from.
- `json.loads` and the `repr` of lists and dicts are parameters of `GenerateRdf.Host`, not parsers and printers written out here.
- Floats, `Decimal`, `datetime` and `bytes` column values: a row value is a str, int, bool, None, list or dict. `quote` of a `bytes` slug is therefore not modelled.
- Lone surrogates cannot occur: a Dafny `char` is a Unicode scalar value. Python `json.loads` turns a `\ud800` escape in the tours text into one. `quote` at line 82 then raises `UnicodeEncodeError`, and line 94 catches it, so that tour and every later one are dropped. The same character in a slug would escape from line 54, like the `TypeError`. The model has neither path.
- `UrlQuote.Unquote` rejects a stray `%` and malformed UTF-8, where Python's `unquote` keeps or replaces them. It serves only to prove that `quote` loses nothing.
- `PyValue.Elements`: iterating a non-empty dict yields its keys, whose `.get` raises at once. The model folds that into "not iterable", which has the same effect on the graph.
- The Speech API URL, the API key from the environment and the HTTP call: network and configuration. `google_stt_raw_bytes` ends after building the URL and returns `None`. Only the payload it builds is modelled, and no transcript is invented.
- The Groq LLM call and the `__main__` server start: an external SDK and process start-up.
- `print` diagnostics.
