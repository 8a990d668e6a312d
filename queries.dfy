/** The read-only routes of the catalog. Each route handler reads the current
    `musicas` and nothing else, so each is a function of that sequence. */
module Queries {
  import opened Tracks
  import opened Seqs
  import opened Text

  /** What `parseFloat` can make of the `:max` path segment. */
  datatype JsNumber = NaN | Infinity(negative: bool) | Finite(v: real)

  datatype GenreReport = GenreReport(genero: string, quantidade: nat, musicas: seq<Track>)
  datatype DurationReport = DurationReport(duracaoMaxima: JsNumber, quantidade: nat, musicas: seq<Track>)
  datatype ArtistReport = ArtistReport(autorPesquisado: string, quantidade: nat, musicas: seq<Track>)

  /** The genre test: the lower-cased genre equals `g`. */
  function HasGenre(g: string): Track -> bool {
    (t: Track) => Lower(t.genero) == g
  }

  /** The duration test `m.duracao <= max`, with JavaScript's comparison
      against NaN and the infinities. */
  function AtMost(max: JsNumber): Track -> bool {
    (t: Track) => match max
               case NaN => false
               case Infinity(negative) => !negative
               case Finite(v) => t.duracao <= v
  }

  /** The artist test: the lower-cased artist includes `fragment`. */
  function ByArtist(fragment: string): Track -> bool {
    (t: Track) => Includes(Lower(t.autor), fragment)
  }

  /** GET /musicas/filtro/genero/:genero. No match is a NotFound that echoes the
      lower-cased query; otherwise the matches, in storage order. */
  function FilterByGenre(musicas: seq<Track>, genero: string): (r: Result<GenreReport>)
    ensures r.Failure? <==> forall t :: t in musicas ==> Lower(t.genero) != Lower(genero)
    ensures r.Failure? ==> r.error == NotFound(Some(Lower(genero)))
    ensures r.Success? ==>
      && r.value.genero == Lower(genero)
      && r.value.quantidade == |r.value.musicas| > 0
      && r.value.musicas == Filter(musicas, HasGenre(Lower(genero)))
      && forall t :: t in r.value.musicas <==> t in musicas && Lower(t.genero) == Lower(genero)
  {
    var g := Lower(genero);
    var filtradas := Filter(musicas, HasGenre(g));
    FilterMembers(musicas, HasGenre(g));
    if |filtradas| == 0 then Failure(NotFound(Some(g)))
    else
      assert filtradas[0] in filtradas;
      Success(GenreReport(g, |filtradas|, filtradas))
  }

  /** The thresholds the duration route refuses: NaN, and every number <= 0. */
  predicate RefusedMax(max: JsNumber) {
    match max
    case NaN => true
    case Infinity(negative) => negative
    case Finite(v) => v <= 0.0
  }

  /** GET /musicas/filtro/duracao/:max. A refused threshold is an
      InvalidArgument; otherwise the records no longer than `max`, in storage
      order, and an empty match is still a success. */
  function FilterByDuration(musicas: seq<Track>, max: JsNumber): (r: Result<DurationReport>)
    ensures r.Failure? <==> max.NaN? || max == Infinity(true) || (max.Finite? && max.v <= 0.0)
    ensures r.Failure? ==> r.error == InvalidArgument(NonPositiveMax)
    ensures r.Success? ==>
      && r.value.duracaoMaxima == max
      && r.value.quantidade == |r.value.musicas|
      && r.value.musicas == Filter(musicas, AtMost(max))
      && forall t :: t in r.value.musicas <==> t in musicas && (max.Finite? ==> t.duracao <= max.v)
  {
    if RefusedMax(max) then Failure(InvalidArgument(NonPositiveMax))
    else
      var filtradas := Filter(musicas, AtMost(max));
      FilterMembers(musicas, AtMost(max));
      Success(DurationReport(max, |filtradas|, filtradas))
  }

  /** GET /musicas/filtro/autor/:autor. Never fails; the matches, in storage
      order, possibly none. */
  function FilterByArtist(musicas: seq<Track>, autor: string): (r: ArtistReport)
    ensures r.autorPesquisado == Lower(autor)
    ensures r.quantidade == |r.musicas| <= |musicas|
    ensures r.musicas == Filter(musicas, ByArtist(Lower(autor)))
    ensures forall t :: t in r.musicas <==> t in musicas && Includes(Lower(t.autor), Lower(autor))
  {
    var fragmento := Lower(autor);
    var filtradas := Filter(musicas, ByArtist(fragmento));
    FilterMembers(musicas, ByArtist(fragmento));
    ArtistReport(fragmento, |filtradas|, filtradas)
  }

  /** GET /musicas/quantidade. */
  function Count(musicas: seq<Track>): (n: nat)
    ensures n == |musicas|
    ensures n == 0 <==> musicas == []
  {
    |musicas|
  }

  /** GET /musicas/primeira: the record at storage position 0. */
  function First(musicas: seq<Track>): (r: Result<Track>)
    ensures r.Failure? <==> musicas == []
    ensures r.Failure? ==> r.error == NotFound(None)
    ensures r.Success? ==> r.value == musicas[0] && r.value in musicas
  {
    if |musicas| == 0 then Failure(NotFound(None)) else Success(musicas[0])
  }

  /** GET /musicas/ultima: the record at the last storage position. */
  function Last(musicas: seq<Track>): (r: Result<Track>)
    ensures r.Failure? <==> musicas == []
    ensures r.Failure? ==> r.error == NotFound(None)
    ensures r.Success? ==> r.value == musicas[|musicas| - 1] && r.value in musicas
  {
    if |musicas| == 0 then Failure(NotFound(None)) else Success(musicas[|musicas| - 1])
  }

  /** A genre report holds each matching record as many times as storage
      does, and no other record. */
  lemma GenreMultiplicity(musicas: seq<Track>, genero: string, t: Track)
    requires FilterByGenre(musicas, genero).Success?
    ensures multiset(FilterByGenre(musicas, genero).value.musicas)[t]
         == if Lower(t.genero) == Lower(genero) then multiset(musicas)[t] else 0
  {
    FilterMultiplicity(musicas, HasGenre(Lower(genero)), t);
  }

  /** Sending back the lower-cased genre a report echoes gives the same
      outcome: the match is insensitive to case. */
  lemma GenreEchoRequery(musicas: seq<Track>, genero: string)
    ensures FilterByGenre(musicas, Lower(genero)) == FilterByGenre(musicas, genero)
  {
    LowerIdempotent(genero);
  }

  /** A larger threshold never reports fewer records. */
  lemma DurationMonotone(musicas: seq<Track>, a: real, b: real)
    requires 0.0 < a <= b
    ensures FilterByDuration(musicas, Finite(a)).Success?
    ensures FilterByDuration(musicas, Finite(a)).value.quantidade
         <= FilterByDuration(musicas, Finite(b)).value.quantidade
  {
    FilterMonotone(musicas, AtMost(Finite(a)), AtMost(Finite(b)));
  }

  /** An infinite threshold keeps the whole catalog. */
  lemma DurationInfinityKeepsAll(musicas: seq<Track>)
    ensures FilterByDuration(musicas, Infinity(false)) == Success(DurationReport(Infinity(false), |musicas|, musicas))
  {
    FilterAll(musicas, AtMost(Infinity(false)));
  }

  /** An artist fragment matches exactly when it occurs somewhere in the
      lower-cased artist name. */
  lemma ArtistMatchesOccurrence(musicas: seq<Track>, autor: string, t: Track)
    ensures t in FilterByArtist(musicas, autor).musicas
        <==> t in musicas && exists i :: OccursAt(Lower(t.autor), Lower(autor), i)
  {
    IncludesIff(Lower(t.autor), Lower(autor));
  }

  /** The function applied to the empty fragment reports the whole catalog,
      with the quantity route's count. The route itself never receives an
      empty fragment, since its `:autor` segment matches at least one
      character. */
  lemma ArtistEmptyFragmentIsCount(musicas: seq<Track>)
    ensures FilterByArtist(musicas, "").musicas == musicas
    ensures FilterByArtist(musicas, "").quantidade == Count(musicas)
  {
    forall t | t in musicas ensures ByArtist(Lower(""))(t) {
      IncludesEmpty(Lower(t.autor));
    }
    FilterAll(musicas, ByArtist(Lower("")));
  }

  /** After records are appended, the artist route reports the earlier
      matches first, then the new ones, each in storage order. */
  lemma ArtistAfterAppend(musicas: seq<Track>, added: seq<Track>, autor: string)
    ensures FilterByArtist(musicas + added, autor).musicas
         == FilterByArtist(musicas, autor).musicas + FilterByArtist(added, autor).musicas
  {
    FilterAppend(musicas, added, ByArtist(Lower(autor)));
  }

  /** The quantity route reports zero exactly when the first and last routes
      report NotFound, and with a single record both report the same one. */
  lemma CountAgreesWithEnds(musicas: seq<Track>)
    ensures Count(musicas) == 0 <==> First(musicas).Failure?
    ensures First(musicas).Failure? <==> Last(musicas).Failure?
    ensures Count(musicas) == 1 ==> First(musicas) == Last(musicas)
  {
  }

  /** Appending never changes the first record of a non-empty catalog. */
  lemma FirstStableUnderAppend(musicas: seq<Track>, added: seq<Track>)
    requires musicas != []
    ensures First(musicas + added) == First(musicas)
  {
  }

  /** After a non-empty append, the last record is the last one appended. */
  lemma LastAfterAppend(musicas: seq<Track>, added: seq<Track>)
    requires added != []
    ensures Last(musicas + added) == Success(added[|added| - 1])
  {
  }

  /** Filtering five records of which the first, third and fifth pass. */
  lemma FilterOddOfFive(a: Track, b: Track, c: Track, d: Track, e: Track, p: Track -> bool)
    requires p(a) && !p(b) && p(c) && !p(d) && p(e)
    ensures Filter([a, b, c, d, e], p) == [a, c, e]
  {
    var s := [a, b, c, d, e];
    assert s[..0] == [] && s[..5] == s;
    FilterPrefixStep(s, 1, p);
    FilterPrefixStep(s, 2, p);
    FilterPrefixStep(s, 3, p);
    FilterPrefixStep(s, 4, p);
    FilterPrefixStep(s, 5, p);
  }

  /** On the seed catalog, a 4-minute threshold keeps tracks 1, 3 and 5. */
  lemma SeedUpToFourMinutes()
    ensures FilterByDuration(Seed(), Finite(4.0))
         == Success(DurationReport(Finite(4.0), 3, [Seed()[0], Seed()[2], Seed()[4]]))
  {
    var s := Seed();
    FilterOddOfFive(s[0], s[1], s[2], s[3], s[4], AtMost(Finite(4.0)));
    assert s == [s[0], s[1], s[2], s[3], s[4]];
  }
}
