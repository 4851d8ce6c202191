/** The append-only hash chain of an expediente (`expediente/services.py`). The hash is a parameter; nothing is
    assumed of it but the length of its digests and, where said, that certain strings do not collide. */
module Expediente {
  import opened Common
  import opened Lists

  /** A row of expediente_documents. */
  datatype Document = Document(
    tenant: Id, reservation: Option<Id>, contract: Option<Id>, documentType: string, url: Option<string>,
    digest: string, prev: Option<string>, chain: string, createdAt: int)

  /** The dossier a document belongs to: of a reservation or of a contract. */
  datatype Owner = OfReservation(tenant: Id, id: Id) | OfContract(tenant: Id, id: Id)

  function Belongs(o: Owner): Document -> bool {
    (d: Document) =>
      d.tenant == o.tenant &&
      match o
      case OfReservation(_, id) => d.reservation == Some(id)
      case OfContract(_, id) => d.contract == Some(id)
  }

  /** The documents of a dossier, in the order they were added. */
  function Dossier(docs: seq<Document>, o: Owner): seq<Document> {
    FilterSeq(Belongs(o), docs)
  }

  const DIGEST_LENGTH := 64

  ghost predicate FixedLength(hash: string -> string) {
    forall s :: |hash(s)| == DIGEST_LENGTH
  }

  /** What is hashed: the document's digest, after the previous link when there is one. */
  function Payload(prev: Option<string>, digest: string): string {
    match prev
    case None => digest
    case Some(p) => p + digest
  }

  /** _compute_chain_sha256. */
  function Link(hash: string -> string, prev: Option<string>, digest: string): string {
    hash(Payload(prev, digest))
  }

  function LastLink(ds: seq<Document>): Option<string> {
    if ds == [] then None else Some(ds[|ds| - 1].chain)
  }

  /** Every document links to the one before it, the first one to none. */
  ghost predicate ValidChain(hash: string -> string, ds: seq<Document>)
    decreases |ds|
  {
    ds == [] ||
    var d := ds[|ds| - 1];
    d.prev == LastLink(ds[..|ds| - 1]) && d.chain == Link(hash, d.prev, d.digest) && ValidChain(hash, ds[..|ds| - 1])
  }

  // ----- Tamper evidence -----

  /** The column holds 64 characters; a digest is not empty. */
  ghost predicate ProperDigests(ds: seq<Document>) {
    forall i | 0 <= i < |ds| :: 0 < |ds[i].digest| <= DIGEST_LENGTH
  }

  ghost function Payloads(ds: seq<Document>): set<string> {
    set i | 0 <= i < |ds| :: Payload(ds[i].prev, ds[i].digest)
  }

  /** No two of these strings have the same digest. */
  ghost predicate CollisionFree(hash: string -> string, payloads: set<string>) {
    forall x, y | x in payloads && y in payloads && hash(x) == hash(y) :: x == y
  }

  /** What the chain covers of a document. */
  datatype Covered = Covered(prev: Option<string>, digest: string, chain: string)

  function Cover(d: Document): Covered {
    Covered(d.prev, d.digest, d.chain)
  }

  function Covers(ds: seq<Document>): seq<Covered> {
    MapSeq(Cover, ds)
  }

  lemma LinkLength(hash: string -> string, ds: seq<Document>)
    requires FixedLength(hash) && ValidChain(hash, ds) && ds != []
    ensures |ds[|ds| - 1].chain| == DIGEST_LENGTH
  {
  }

  /** A payload tells whether there was a previous link, which one, and the digest: the first document hashes at
      most 64 characters, a later one more. */
  lemma PayloadIsInjective(p: Option<string>, d: string, q: Option<string>, e: string)
    requires 0 < |d| <= DIGEST_LENGTH && 0 < |e| <= DIGEST_LENGTH
    requires (p.Some? ==> |p.value| == DIGEST_LENGTH) && (q.Some? ==> |q.value| == DIGEST_LENGTH)
    requires Payload(p, d) == Payload(q, e)
    ensures p == q && d == e
  {
    if p.Some? && q.Some? {
      assert p.value == (p.value + d)[..DIGEST_LENGTH] && d == (p.value + d)[DIGEST_LENGTH..];
      assert q.value == (q.value + e)[..DIGEST_LENGTH] && e == (q.value + e)[DIGEST_LENGTH..];
    }
  }

  lemma PrefixPayloads(ds: seq<Document>, n: nat)
    requires n <= |ds|
    ensures Payloads(ds[..n]) <= Payloads(ds)
  {
    forall x | x in Payloads(ds[..n])
      ensures x in Payloads(ds)
    {
      var i :| 0 <= i < n && x == Payload(ds[..n][i].prev, ds[..n][i].digest);
      assert ds[..n][i] == ds[i];
    }
  }

  lemma LastPayload(ds: seq<Document>)
    requires ds != []
    ensures Payload(ds[|ds| - 1].prev, ds[|ds| - 1].digest) in Payloads(ds)
  {
  }

  /** Two valid chains none of whose hashed strings collide. */
  ghost predicate Comparable(hash: string -> string, ds: seq<Document>, es: seq<Document>) {
    && FixedLength(hash) && ValidChain(hash, ds) && ValidChain(hash, es)
    && ProperDigests(ds) && ProperDigests(es)
    && CollisionFree(hash, Payloads(ds) + Payloads(es))
  }

  lemma PrefixesAreComparable(hash: string -> string, ds: seq<Document>, m: nat, es: seq<Document>, n: nat)
    requires Comparable(hash, ds, es) && m <= |ds| && n <= |es|
    ensures Comparable(hash, ds[..m], es[..n])
  {
    PrefixIsValid(hash, ds, m);
    PrefixIsValid(hash, es, n);
    PrefixPayloads(ds, m);
    PrefixPayloads(es, n);
  }

  lemma {:induction false} PrefixIsValid(hash: string -> string, ds: seq<Document>, n: nat)
    requires ValidChain(hash, ds) && n <= |ds|
    ensures ValidChain(hash, ds[..n])
    decreases |ds|
  {
    if n < |ds| {
      PrefixIsValid(hash, ds[..|ds| - 1], n);
      assert ds[..|ds| - 1][..n] == ds[..n];
    } else {
      assert ds[..n] == ds;
    }
  }

  /** Two chains ending in the same link hashed the same last payload. */
  lemma SameLastDocument(hash: string -> string, ds: seq<Document>, es: seq<Document>)
    requires Comparable(hash, ds, es) && ds != [] && es != [] && LastLink(ds) == LastLink(es)
    ensures Cover(ds[|ds| - 1]) == Cover(es[|es| - 1])
    ensures LastLink(ds[..|ds| - 1]) == LastLink(es[..|es| - 1])
  {
    var d, e := ds[|ds| - 1], es[|es| - 1];
    LastPayload(ds);
    LastPayload(es);
    assert hash(Payload(d.prev, d.digest)) == hash(Payload(e.prev, e.digest));
    if |ds| > 1 { LinkLength(hash, ds[..|ds| - 1]); }
    if |es| > 1 { LinkLength(hash, es[..|es| - 1]); }
    PayloadIsInjective(d.prev, d.digest, e.prev, e.digest);
  }

  lemma CoversStep(ds: seq<Document>)
    requires ds != []
    ensures Covers(ds) == Covers(ds[..|ds| - 1]) + [Cover(ds[|ds| - 1])]
  {
  }

  /** Two valid chains with the same last link are the same chain, document by document, unless two of the
      strings hashed in them collide. */
  lemma {:induction false} TamperEvident(hash: string -> string, ds: seq<Document>, es: seq<Document>)
    requires Comparable(hash, ds, es) && LastLink(ds) == LastLink(es)
    ensures Covers(ds) == Covers(es)
    decreases |ds|
  {
    if ds != [] && es != [] {
      var m, n := |ds| - 1, |es| - 1;
      SameLastDocument(hash, ds, es);
      PrefixesAreComparable(hash, ds, m, es, n);
      TamperEvident(hash, ds[..m], es[..n]);
      CoversStep(ds);
      CoversStep(es);
    }
  }

  /** An empty digest would break this: the two-document chain ending in it has the last link of the
      one-document chain whose digest is the first link. */
  lemma EmptyDigestIsAmbiguous(hash: string -> string, a: Document, b: Document, c: Document)
    requires a.prev == None && a.chain == Link(hash, None, a.digest)
    requires b.digest == "" && b.prev == Some(a.chain) && b.chain == Link(hash, b.prev, b.digest)
    requires c.prev == None && c.digest == a.chain && c.chain == Link(hash, None, c.digest)
    ensures ValidChain(hash, [a, b]) && ValidChain(hash, [c]) && LastLink([a, b]) == LastLink([c])
    ensures Covers([a, b]) != Covers([c])
  {
    assert [a, b][..1] == [a] && [a][..0] == [] && [c][..0] == [];
    assert Payload(b.prev, b.digest) == a.chain;
  }

  /** The type and the location of a document are not covered: changing them leaves the chain valid. */
  lemma {:induction false} OnlyCoveredFieldsMatter(hash: string -> string, ds: seq<Document>, es: seq<Document>)
    requires Covers(ds) == Covers(es)
    ensures ValidChain(hash, ds) <==> ValidChain(hash, es)
    decreases |ds|
  {
    assert |ds| == |Covers(ds)| && |es| == |Covers(es)|;
    if ds != [] {
      var n := |ds| - 1;
      assert Covers(ds[..n]) == Covers(ds)[..n] && Covers(es[..n]) == Covers(es)[..n];
      OnlyCoveredFieldsMatter(hash, ds[..n], es[..n]);
      assert Covers(ds)[n] == Covers(es)[n];
      if n > 0 { assert Covers(ds)[n - 1] == Covers(es)[n - 1]; }
    }
  }

  // ----- Appending -----

  /** What get_last_chain_sha256 may answer: the link of a document no other of the dossier is newer than. */
  ghost predicate MayAnswer(ds: seq<Document>, answer: Option<string>) {
    if ds == [] then answer == None
    else exists i :: Newest(ds, i) && answer == Some(ds[i].chain)
  }

  ghost predicate Newest(ds: seq<Document>, i: int) {
    0 <= i < |ds| && forall j | 0 <= j < |ds| :: ds[j].createdAt <= ds[i].createdAt
  }

  /** The last document is strictly newer than the others. */
  ghost predicate LastIsNewest(ds: seq<Document>) {
    forall i | 0 <= i < |ds| - 1 :: ds[i].createdAt < ds[|ds| - 1].createdAt
  }

  /** A new document with the link it was given to continue from. */
  ghost predicate Continues(hash: string -> string, d: Document, answer: Option<string>) {
    d.prev == answer && d.chain == Link(hash, answer, d.digest)
  }

  lemma ValidPrefix(hash: string -> string, ds: seq<Document>, d: Document)
    ensures ValidChain(hash, ds + [d]) <==> ValidChain(hash, ds) && Continues(hash, d, LastLink(ds))
  {
    assert (ds + [d])[..|ds|] == ds;
  }

  lemma DifferentLengths(hash: string -> string, ds: seq<Document>, es: seq<Document>)
    requires Comparable(hash, ds, es) && |ds| != |es|
    ensures LastLink(ds) != LastLink(es)
  {
    if LastLink(ds) == LastLink(es) {
      TamperEvident(hash, ds, es);
      SameLength(ds, es);
    }
  }

  lemma SameLength(ds: seq<Document>, es: seq<Document>)
    requires Covers(ds) == Covers(es)
    ensures |ds| == |es|
  {
    assert |ds| == |Covers(ds)| && |es| == |Covers(es)|;
  }

  lemma LinkOfPrefix(ds: seq<Document>, i: nat)
    requires i < |ds|
    ensures LastLink(ds[..i + 1]) == Some(ds[i].chain)
  {
  }

  /** No two documents of a valid chain have the same link. */
  lemma LinksAreDistinct(hash: string -> string, ds: seq<Document>, i: nat, j: nat)
    requires Comparable(hash, ds, ds) && i < j < |ds|
    ensures ds[i].chain != ds[j].chain
  {
    PrefixesAreComparable(hash, ds, i + 1, ds, j + 1);
    DifferentLengths(hash, ds[..i + 1], ds[..j + 1]);
    LinkOfPrefix(ds, i);
    LinkOfPrefix(ds, j);
  }

  lemma {:induction false} SomeNewest(ds: seq<Document>) returns (i: nat)
    requires ds != []
    ensures Newest(ds, i)
    decreases |ds|
  {
    var n := |ds| - 1;
    if n == 0 {
      i := 0;
    } else {
      i := SomeNewest(ds[..n]);
      assert forall j | 0 <= j < n :: ds[..n][j] == ds[j];
      if ds[i].createdAt < ds[n].createdAt { i := n; }
    }
  }

  /** When the last document is not strictly newer than the others, some other document may be the answer. */
  lemma SomeOtherNewest(ds: seq<Document>) returns (i: nat)
    requires !LastIsNewest(ds)
    ensures Newest(ds, i) && i < |ds| - 1
  {
    var n := |ds| - 1;
    var k :| 0 <= k < n && ds[k].createdAt >= ds[n].createdAt;
    i := SomeNewest(ds[..n]);
    assert forall j | 0 <= j < n :: ds[..n][j] == ds[j];
  }

  /** Whatever link the query answers, continuing from it keeps the chain valid. */
  ghost predicate AnyAnswerContinues(hash: string -> string, ds: seq<Document>) {
    forall d: Document | MayAnswer(ds, d.prev) && d.chain == Link(hash, d.prev, d.digest) :: ValidChain(hash, ds + [d])
  }

  /** Appending keeps the chain valid, whatever the database answers, if and only if the last document is
      strictly newer than the others. Timestamps are those of the transaction, so two documents added in one
      transaction are a case where it is not. */
  lemma AppendKeepsChainIff(hash: string -> string, ds: seq<Document>)
    requires Comparable(hash, ds, ds)
    ensures AnyAnswerContinues(hash, ds) <==> LastIsNewest(ds)
  {
    if LastIsNewest(ds) {
      forall d: Document | MayAnswer(ds, d.prev) && d.chain == Link(hash, d.prev, d.digest)
        ensures ValidChain(hash, ds + [d])
      {
        OnlyAnswer(ds, d.prev);
        ValidPrefix(hash, ds, d);
      }
    } else {
      var i := SomeOtherNewest(ds);
      var prev := Some(ds[i].chain);
      var d := Document(0, None, None, "", None, "", prev, Link(hash, prev, ""), 0);
      LinksAreDistinct(hash, ds, i, |ds| - 1);
      ValidPrefix(hash, ds, d);
      assert MayAnswer(ds, d.prev) && !ValidChain(hash, ds + [d]);
    }
  }

  lemma OnlyAnswer(ds: seq<Document>, answer: Option<string>)
    requires LastIsNewest(ds) && MayAnswer(ds, answer)
    ensures answer == LastLink(ds)
  {
    if ds != [] {
      var i :| Newest(ds, i) && answer == Some(ds[i].chain);
      assert i == |ds| - 1;
    }
  }

  // ----- The store -----

  /** The arguments of append_document, and the transaction's time. */
  datatype Request = Request(
    tenant: Id, documentType: string, digest: string, url: Option<string>,
    reservation: Option<Id>, contract: Option<Id>, now: int)

  /** Exactly one of reservation and contract is given. */
  predicate WellFormed(r: Request) {
    r.reservation.Some? != r.contract.Some?
  }

  function OwnerOf(r: Request): Owner
    requires WellFormed(r)
  {
    if r.reservation.Some? then OfReservation(r.tenant, r.reservation.value) else OfContract(r.tenant, r.contract.value)
  }

  function DocumentFor(hash: string -> string, r: Request, prev: Option<string>): Document {
    var link := Link(hash, prev, r.digest);
    Document(r.tenant, r.reservation, r.contract, r.documentType, r.url, r.digest, prev, link, r.now)
  }

  /** One call: refused without effect, or one document added that continues from a possible answer. */
  ghost predicate Appends(hash: string -> string, docs: seq<Document>, r: Request, docs': seq<Document>) {
    if !WellFormed(r) then docs' == docs
    else exists prev :: MayAnswer(Dossier(docs, OwnerOf(r)), prev) && docs' == docs + [DocumentFor(hash, r, prev)]
  }

  /** The document is one of the dossier the request names, and none of that dossier is newer. */
  ghost predicate NewestOf(docs: seq<Document>, r: Request, d: Document) {
    && d in docs && d.tenant == r.tenant
    && (if r.reservation.Some? then d.reservation == r.reservation else d.contract == r.contract)
    && forall x | x in docs && x.tenant == r.tenant &&
                  (if r.reservation.Some? then x.reservation == r.reservation else x.contract == r.contract) ::
         x.createdAt <= d.createdAt
  }

  /** The request without exactly one owner changes nothing. Any other adds a document with what the request says,
      whose link hashes the digest, after the link of a newest document of its dossier if there is one. */
  ghost predicate AppendOutcome(hash: string -> string, docs: seq<Document>, r: Request, docs': seq<Document>) {
    if r.reservation.Some? == r.contract.Some? then docs' == docs
    else
      && |docs'| == |docs| + 1 && docs'[..|docs|] == docs
      && var d := docs'[|docs|];
         && d.tenant == r.tenant && d.reservation == r.reservation && d.contract == r.contract
         && d.documentType == r.documentType && d.url == r.url && d.digest == r.digest && d.createdAt == r.now
         && match d.prev
            case None => d.chain == hash(r.digest) && forall x | x in docs :: !NewestOf(docs, r, x)
            case Some(link) => d.chain == hash(link + r.digest) && exists x :: NewestOf(docs, r, x) && x.chain == link
  }

  lemma InDossier(docs: seq<Document>, r: Request, x: Document)
    requires WellFormed(r)
    ensures x in Dossier(docs, OwnerOf(r)) <==>
            x in docs && x.tenant == r.tenant &&
            (if r.reservation.Some? then x.reservation == r.reservation else x.contract == r.contract)
  {
    FilterMembers(Belongs(OwnerOf(r)), docs, x);
  }

  lemma NewestIff(docs: seq<Document>, r: Request, x: Document)
    requires WellFormed(r)
    ensures NewestOf(docs, r, x) <==>
            exists i :: Newest(Dossier(docs, OwnerOf(r)), i) && Dossier(docs, OwnerOf(r))[i] == x
  {
    var ds := Dossier(docs, OwnerOf(r));
    forall y { InDossier(docs, r, y); }
    if NewestOf(docs, r, x) {
      var i :| 0 <= i < |ds| && ds[i] == x;
      forall j | 0 <= j < |ds|
        ensures ds[j].createdAt <= ds[i].createdAt
      {
        assert ds[j] in ds;
      }
      assert Newest(ds, i);
    }
  }

  lemma NoneNewest(docs: seq<Document>, r: Request)
    requires WellFormed(r) && Dossier(docs, OwnerOf(r)) == []
    ensures forall x | x in docs :: !NewestOf(docs, r, x)
  {
    forall x | x in docs
      ensures !NewestOf(docs, r, x)
    {
      NewestIff(docs, r, x);
    }
  }

  /** Every call has this outcome. */
  lemma AppendHasOutcome(hash: string -> string, docs: seq<Document>, r: Request, docs': seq<Document>)
    requires Appends(hash, docs, r, docs')
    ensures AppendOutcome(hash, docs, r, docs')
  {
    if WellFormed(r) {
      var ds := Dossier(docs, OwnerOf(r));
      var prev :| MayAnswer(ds, prev) && docs' == docs + [DocumentFor(hash, r, prev)];
      if ds == [] {
        NoneNewest(docs, r);
      } else {
        var i :| Newest(ds, i) && prev == Some(ds[i].chain);
        NewestIff(docs, r, ds[i]);
        assert NewestOf(docs, r, ds[i]);
      }
    }
  }

  datatype AppendError = ExactlyOneOwner

  /** The expediente_documents table. */
  class DocumentStore {
    const hash: string -> string
    var documents: seq<Document>

    constructor (hash: string -> string)
      ensures this.hash == hash && documents == []
    {
      this.hash := hash;
      documents := [];
    }

    /** get_last_chain_sha256: the newest document's link; among equally new ones the database may take any. */
    method GetLastChain(o: Owner) returns (answer: Option<string>)
      ensures MayAnswer(Dossier(documents, o), answer)
    {
      var ds := Dossier(documents, o);
      if ds == [] {
        return None;
      }
      var newest := 0;
      for i := 1 to |ds|
        invariant 0 <= newest < i && forall j | 0 <= j < i :: ds[j].createdAt <= ds[newest].createdAt
      {
        if ds[newest].createdAt < ds[i].createdAt {
          newest := i;
        } else if ds[newest].createdAt == ds[i].createdAt {
          if * { newest := i; }
        }
      }
      assert Newest(ds, newest);
      answer := Some(ds[newest].chain);
    }

    /** append_document. */
    method AppendDocument(r: Request) returns (result: Result<Document, AppendError>)
      modifies this`documents
      ensures result.Ok? <==> WellFormed(r)
      ensures Appends(hash, old(documents), r, documents)
      ensures AppendOutcome(hash, old(documents), r, documents)
      ensures result.Ok? ==> documents == old(documents) + [result.value] && result.value.createdAt == r.now
    {
      if r.reservation.None? == r.contract.None? {
        return Err(ExactlyOneOwner);
      }
      var prev := GetLastChain(OwnerOf(r));
      var doc := DocumentFor(hash, r, prev);
      AppendHasOutcome(hash, documents, r, documents + [doc]);
      documents := documents + [doc];
      result := Ok(doc);
    }
  }

  // ----- Runs -----

  /** A run of calls, each after the one before it. */
  ghost predicate IsRun(hash: string -> string, states: seq<seq<Document>>, requests: seq<Request>) {
    && |states| == |requests| + 1 && states[0] == []
    && (forall i | 0 <= i < |requests| :: Appends(hash, states[i], requests[i], states[i + 1]))
    && forall i, j | 0 <= i < j < |requests| :: requests[i].now < requests[j].now
  }

  ghost predicate Ascending(docs: seq<Document>) {
    forall i, j | 0 <= i < j < |docs| :: docs[i].createdAt < docs[j].createdAt
  }

  /** All dossiers are valid chains. */
  ghost predicate AllValid(hash: string -> string, docs: seq<Document>) {
    forall o :: ValidChain(hash, Dossier(docs, o))
  }

  lemma {:induction false} DossierAscends(docs: seq<Document>, o: Owner)
    requires Ascending(docs)
    ensures Ascending(Dossier(docs, o)) && LastIsNewest(Dossier(docs, o))
    decreases |docs|
  {
    if docs != [] {
      var n := |docs| - 1;
      DossierAscends(docs[..n], o);
      var before := Dossier(docs[..n], o);
      forall i | 0 <= i < |before|
        ensures before[i].createdAt < docs[n].createdAt
      {
        FilterMembers(Belongs(o), docs[..n], before[i]);
        var j :| 0 <= j < n && docs[j] == before[i];
      }
    }
  }

  lemma DossierStep(docs: seq<Document>, d: Document, o: Owner)
    ensures Dossier(docs + [d], o) == if Belongs(o)(d) then Dossier(docs, o) + [d] else Dossier(docs, o)
  {
    assert (docs + [d])[..|docs|] == docs;
  }

  /** Only the request's own dossier grows. */
  lemma BelongsToOwner(hash: string -> string, r: Request, prev: Option<string>, o: Owner)
    requires WellFormed(r)
    ensures Belongs(o)(DocumentFor(hash, r, prev)) <==> o == OwnerOf(r)
  {
  }

  lemma AppendKeepsAllValid(hash: string -> string, docs: seq<Document>, r: Request, docs': seq<Document>)
    requires Appends(hash, docs, r, docs') && Ascending(docs) && AllValid(hash, docs)
    requires forall i | 0 <= i < |docs| :: docs[i].createdAt < r.now
    ensures Ascending(docs') && AllValid(hash, docs')
  {
    if WellFormed(r) {
      var prev :| MayAnswer(Dossier(docs, OwnerOf(r)), prev) && docs' == docs + [DocumentFor(hash, r, prev)];
      var d := DocumentFor(hash, r, prev);
      DossierAscends(docs, OwnerOf(r));
      OnlyAnswer(Dossier(docs, OwnerOf(r)), prev);
      forall o
        ensures ValidChain(hash, Dossier(docs', o))
      {
        DossierStep(docs, d, o);
        BelongsToOwner(hash, r, prev, o);
        ValidPrefix(hash, Dossier(docs, o), d);
      }
    }
  }

  lemma {:induction false} RunPrefixIsValid(
    hash: string -> string, states: seq<seq<Document>>, requests: seq<Request>, k: nat
  )
    requires IsRun(hash, states, requests) && k < |states|
    ensures Ascending(states[k]) && AllValid(hash, states[k])
    ensures forall i, j | 0 <= i < |states[k]| && k <= j < |requests| :: states[k][i].createdAt < requests[j].now
    decreases k
  {
    if k > 0 {
      RunPrefixIsValid(hash, states, requests, k - 1);
      AppendKeepsAllValid(hash, states[k - 1], requests[k - 1], states[k]);
    }
  }

  /** In every run of calls at increasing times, of any tenants, reservations and contracts, refused calls
      included, every dossier is a valid chain. */
  lemma EveryRunKeepsChains(hash: string -> string, states: seq<seq<Document>>, requests: seq<Request>)
    requires IsRun(hash, states, requests)
    ensures forall k | 0 <= k < |states| :: AllValid(hash, states[k])
  {
    forall k | 0 <= k < |states|
      ensures AllValid(hash, states[k])
    {
      RunPrefixIsValid(hash, states, requests, k);
    }
  }

  // ----- A fork -----

  lemma TwoDossier(o: Owner, a: Document, b: Document)
    requires Belongs(o)(a) && Belongs(o)(b)
    ensures Dossier([], o) == [] && Dossier([a], o) == [a] && Dossier([a, b], o) == [a, b]
  {
    DossierStep([], a, o);
    DossierStep([a], b, o);
    assert [] + [a] == [a] && [a] + [b] == [a, b];
  }

  /** The document added to a reservation's dossier. */
  function ForReservation(digest: string, now: int): Request {
    Request(0, "KYC", digest, None, Some(0), None, now)
  }

  lemma FirstTwo(hash: string -> string, a: string, b: string)
    ensures
      var d0 := DocumentFor(hash, ForReservation(a, 1), None);
      var d1 := DocumentFor(hash, ForReservation(b, 1), Some(d0.chain));
      && Appends(hash, [], ForReservation(a, 1), [d0]) && Appends(hash, [d0], ForReservation(b, 1), [d0, d1])
      && Dossier([d0, d1], OfReservation(0, 0)) == [d0, d1] && ValidChain(hash, [d0, d1])
  {
    var o := OfReservation(0, 0);
    var d0 := DocumentFor(hash, ForReservation(a, 1), None);
    var d1 := DocumentFor(hash, ForReservation(b, 1), Some(d0.chain));
    TwoDossier(o, d0, d1);
    assert [] + [d0] == [d0] && [d0] + [d1] == [d0, d1];
    assert MayAnswer(Dossier([], o), None);
    assert Newest([d0], 0) && MayAnswer(Dossier([d0], o), Some(d0.chain));
    assert [d0, d1][..1] == [d0] && [d0][..0] == [];
  }

  /** Three documents, the first two added in one transaction: the database may answer the first one's link for
      the third, which then continues beside the second, and the dossier is no chain. */
  lemma SameTransactionForks(hash: string -> string, a: string, b: string, x: string)
    requires hash(a) != hash(hash(a) + b)
    ensures
      var d0 := DocumentFor(hash, ForReservation(a, 1), None);
      var d1 := DocumentFor(hash, ForReservation(b, 1), Some(d0.chain));
      var d2 := DocumentFor(hash, ForReservation(x, 2), Some(d0.chain));
      && Appends(hash, [], ForReservation(a, 1), [d0]) && Appends(hash, [d0], ForReservation(b, 1), [d0, d1])
      && Appends(hash, [d0, d1], ForReservation(x, 2), [d0, d1, d2])
      && !ValidChain(hash, Dossier([d0, d1, d2], OfReservation(0, 0)))
  {
    var o := OfReservation(0, 0);
    var d0 := DocumentFor(hash, ForReservation(a, 1), None);
    var d1 := DocumentFor(hash, ForReservation(b, 1), Some(d0.chain));
    var d2 := DocumentFor(hash, ForReservation(x, 2), Some(d0.chain));
    FirstTwo(hash, a, b);
    assert Newest([d0, d1], 0) && [d0, d1][0] == d0;
    assert MayAnswer(Dossier([d0, d1], o), Some(d0.chain));
    assert [d0, d1] + [d2] == [d0, d1, d2];
    DossierStep([d0, d1], d2, o);
    ValidPrefix(hash, [d0, d1], d2);
  }
}
