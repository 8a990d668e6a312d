/** GET /musicas/estatisticas: the aggregates over the current `musicas`.
    The folds (`reduce`, `Math.min`, `Math.max`) are functions; the genre
    tally, a loop that updates a dictionary, is a method. */
module Statistics {
  import opened Tracks

  // ---------------------------------------------------------------------
  // Durations

  /** `musicas.reduce((acc, m) => acc + m.duracao, 0)`: folded from the left. */
  function SumDuration(ms: seq<Track>): (soma: real)
    ensures ms == [] ==> soma == 0.0
    ensures |ms| == 1 ==> soma == ms[0].duracao
  {
    if ms == [] then 0.0 else SumDuration(ms[..|ms| - 1]) + ms[|ms| - 1].duracao
  }

  /** The sum splits over concatenation, so it does not depend on how the
      catalog was built up. */
  lemma {:induction false} SumDurationAppend(a: seq<Track>, b: seq<Track>)
    ensures SumDuration(a + b) == SumDuration(a) + SumDuration(b)
  {
    if b == [] {
      assert a + b == a;
    } else {
      assert (a + b)[..|a + b| - 1] == a + b[..|b| - 1];
      SumDurationAppend(a, b[..|b| - 1]);
    }
  }

  /** Position `i` holds the first record of greatest duration. */
  ghost predicate FirstLongestAt(ms: seq<Track>, i: int) {
    && 0 <= i < |ms|
    && (forall j :: 0 <= j < |ms| ==> ms[j].duracao <= ms[i].duracao)
    && (forall j :: 0 <= j < i ==> ms[j].duracao < ms[i].duracao)
  }

  /** Position `i` holds the first record of least duration. */
  ghost predicate FirstShortestAt(ms: seq<Track>, i: int) {
    && 0 <= i < |ms|
    && (forall j :: 0 <= j < |ms| ==> ms[i].duracao <= ms[j].duracao)
    && (forall j :: 0 <= j < i ==> ms[i].duracao < ms[j].duracao)
  }

  /** `musicas.reduce((max, m) => m.duracao > max.duracao ? m : max)`, as the
      position of the record it returns: the strict comparison keeps the
      earliest of equally long records. */
  function LongestIndex(ms: seq<Track>): (i: nat)
    requires ms != []
    ensures FirstLongestAt(ms, i)
  {
    if |ms| == 1 then 0
    else
      var best := LongestIndex(ms[..|ms| - 1]);
      if ms[|ms| - 1].duracao > ms[best].duracao then |ms| - 1 else best
  }

  /** `musicas.reduce((min, m) => m.duracao < min.duracao ? m : min)`, as the
      position of the record it returns. */
  function ShortestIndex(ms: seq<Track>): (i: nat)
    requires ms != []
    ensures FirstShortestAt(ms, i)
  {
    if |ms| == 1 then 0
    else
      var best := ShortestIndex(ms[..|ms| - 1]);
      if ms[|ms| - 1].duracao < ms[best].duracao then |ms| - 1 else best
  }

  /** A sum of durations none above `hi` is at most `n * hi`. */
  lemma {:induction false} SumAtMost(ms: seq<Track>, hi: real)
    requires forall j :: 0 <= j < |ms| ==> ms[j].duracao <= hi
    ensures SumDuration(ms) <= (|ms| as real) * hi
  {
    if ms != [] {
      SumAtMost(ms[..|ms| - 1], hi);
      assert ((|ms| - 1) as real) * hi + hi == (|ms| as real) * hi;
    }
  }

  /** A sum of durations none below `lo` is at least `n * lo`. */
  lemma {:induction false} SumAtLeast(ms: seq<Track>, lo: real)
    requires forall j :: 0 <= j < |ms| ==> lo <= ms[j].duracao
    ensures (|ms| as real) * lo <= SumDuration(ms)
  {
    if ms != [] {
      SumAtLeast(ms[..|ms| - 1], lo);
      assert ((|ms| - 1) as real) * lo + lo == (|ms| as real) * lo;
    }
  }

  /** If every duration lies in `[lo, hi]`, so does the mean. */
  lemma {:induction false} MeanWithin(ms: seq<Track>, lo: real, hi: real)
    requires ms != []
    requires forall j :: 0 <= j < |ms| ==> lo <= ms[j].duracao <= hi
    ensures lo <= SumDuration(ms) / (|ms| as real) <= hi
  {
    SumAtMost(ms, hi);
    SumAtLeast(ms, lo);
    QuotientBetween(SumDuration(ms), |ms| as real, lo, hi);
  }

  /** The mean duration lies between the shortest and the longest one. */
  lemma MeanBetweenExtremes(ms: seq<Track>)
    requires ms != []
    ensures ms[ShortestIndex(ms)].duracao <= SumDuration(ms) / (|ms| as real) <= ms[LongestIndex(ms)].duracao
  {
    MeanWithin(ms, ms[ShortestIndex(ms)].duracao, ms[LongestIndex(ms)].duracao);
  }

  /** Dividing `n * lo <= x <= n * hi` by a positive `n`. */
  lemma QuotientBetween(x: real, n: real, lo: real, hi: real)
    requires n > 0.0 && n * lo <= x <= n * hi
    ensures lo <= x / n <= hi
  {
  }

  // ---------------------------------------------------------------------
  // Years

  /** `Math.min(...musicas.map(m => m.ano))`. */
  function OldestYear(ms: seq<Track>): (y: int)
    requires ms != []
    ensures forall j :: 0 <= j < |ms| ==> y <= ms[j].ano
    ensures exists j :: 0 <= j < |ms| && ms[j].ano == y
  {
    if |ms| == 1 then ms[0].ano
    else
      var rest := OldestYear(ms[..|ms| - 1]);
      if ms[|ms| - 1].ano < rest then ms[|ms| - 1].ano else rest
  }

  /** `Math.max(...musicas.map(m => m.ano))`. */
  function NewestYear(ms: seq<Track>): (y: int)
    requires ms != []
    ensures forall j :: 0 <= j < |ms| ==> ms[j].ano <= y
    ensures exists j :: 0 <= j < |ms| && ms[j].ano == y
  {
    if |ms| == 1 then ms[0].ano
    else
      var rest := NewestYear(ms[..|ms| - 1]);
      if ms[|ms| - 1].ano > rest then ms[|ms| - 1].ano else rest
  }

  // ---------------------------------------------------------------------
  // Genres

  /** The number of records whose genre is exactly `g`. */
  function CountGenre(ms: seq<Track>, g: string): nat {
    if ms == [] then 0
    else CountGenre(ms[..|ms| - 1], g) + if ms[|ms| - 1].genero == g then 1 else 0
  }

  /** The genres that occur in the catalog. */
  ghost function Genres(ms: seq<Track>): set<string> {
    set t | t in ms :: t.genero
  }

  /** The intended `distribuicaoGeneros`, built as the loop builds it: each
      record adds one to the count of its genre, starting from 0. */
  ghost function GenreDistribution(ms: seq<Track>): map<string, nat> {
    if ms == [] then map[]
    else
      var d, g := GenreDistribution(ms[..|ms| - 1]), ms[|ms| - 1].genero;
      d[g := (if g in d then d[g] else 0) + 1]
  }

  /** A genre is counted at least once exactly when it occurs. */
  lemma {:induction false} CountGenrePositive(ms: seq<Track>, g: string)
    ensures CountGenre(ms, g) > 0 <==> g in Genres(ms)
  {
    if ms != [] {
      var init := ms[..|ms| - 1];
      assert ms == init + [ms[|ms| - 1]];
      CountGenrePositive(init, g);
      assert Genres(ms) == Genres(init) + {ms[|ms| - 1].genero};
    }
  }

  /** The sum of a map's values. */
  ghost function SumValues(m: map<string, nat>): nat
    decreases |m.Keys|
  {
    if m == map[] then 0
    else
      var k :| k in m;
      assert |(m - {k}).Keys| < |m.Keys| by { assert (m - {k}).Keys == m.Keys - {k}; }
      m[k] + SumValues(m - {k})
  }

  /** Any key can be taken out first. */
  lemma {:induction false} SumValuesRemove(m: map<string, nat>, k: string)
    requires k in m
    ensures SumValues(m) == m[k] + SumValues(m - {k})
    decreases |m.Keys|
  {
    var c :| c in m && SumValues(m) == m[c] + SumValues(m - {c});
    if c != k {
      assert (m - {c}).Keys == m.Keys - {c};
      SumValuesRemove(m - {c}, k);
      assert (m - {k}).Keys == m.Keys - {k};
      SumValuesRemove(m - {k}, c);
      assert m - {c} - {k} == m - {k} - {c};
    }
  }

  /** Raising one key by one raises the sum by one. */
  lemma SumValuesBump(m: map<string, nat>, k: string)
    ensures SumValues(m[k := (if k in m then m[k] else 0) + 1]) == SumValues(m) + 1
  {
    var m' := m[k := (if k in m then m[k] else 0) + 1];
    SumValuesRemove(m', k);
    assert m' - {k} == m - {k};
    if k in m {
      SumValuesRemove(m, k);
    } else {
      assert m - {k} == m;
    }
  }

  /** The distribution maps exactly the genres that occur, each to the
      number of records that have it. */
  lemma {:induction false} DistributionCounts(ms: seq<Track>)
    ensures GenreDistribution(ms).Keys == Genres(ms)
    ensures forall g | g in GenreDistribution(ms) :: GenreDistribution(ms)[g] == CountGenre(ms, g)
  {
    if ms != [] {
      var init := ms[..|ms| - 1];
      assert ms == init + [ms[|ms| - 1]];
      assert Genres(ms) == Genres(init) + {ms[|ms| - 1].genero};
      DistributionCounts(init);
      if ms[|ms| - 1].genero !in Genres(init) {
        CountGenrePositive(init, ms[|ms| - 1].genero);
      }
    }
  }

  /** The counts of the distribution add up to the number of records. */
  lemma {:induction false} DistributionTotal(ms: seq<Track>)
    ensures SumValues(GenreDistribution(ms)) == |ms|
  {
    if ms == [] {
      assert GenreDistribution(ms) == map[];
    } else {
      var init := ms[..|ms| - 1];
      DistributionTotal(init);
      SumValuesBump(GenreDistribution(init), ms[|ms| - 1].genero);
    }
  }

  /** The `generos` loop, with the dictionary modelled as a map. */
  method GenreTally(ms: seq<Track>) returns (generos: map<string, nat>)
    ensures generos == GenreDistribution(ms)
    ensures generos.Keys == Genres(ms)
    ensures forall g :: g in generos ==> generos[g] == CountGenre(ms, g) > 0
    ensures SumValues(generos) == |ms|
  {
    generos := map[];
    var i := 0;
    assert ms[..0] == [];
    assert GenreDistribution(ms[..0]) == map[];
    while i < |ms|
      invariant 0 <= i <= |ms|
      invariant generos == GenreDistribution(ms[..i])
    {
      var g := ms[i].genero;
      generos := generos[g := (if g in generos then generos[g] else 0) + 1];
      assert ms[..i + 1][..i] == ms[..i];
      i := i + 1;
    }
    assert ms[..i] == ms;
    DistributionCounts(ms);
    forall g | g in generos ensures generos[g] > 0 {
      CountGenrePositive(ms, g);
    }
    DistributionTotal(ms);
  }

  // ---------------------------------------------------------------------
  // The report

  datatype Report =
    | NoTracks  // the catalog is empty: only `total: 0` is reported
    | Summary(
        total: nat,
        somaDuracao: real,
        mediaDuracao: real,
        maisLonga: Track,
        maisCurta: Track,
        distribuicaoGeneros: map<string, nat>,
        anoMaisAntigo: int,
        anoMaisRecente: int,
        periodoAnos: int)

  /** GET /musicas/estatisticas. Sum and mean are exact (the two-decimal
      rounding of the response is not modelled). */
  method Compute(ms: seq<Track>) returns (s: Report)
    ensures s.NoTracks? <==> ms == []
    ensures s.Summary? ==>
      && s.total == |ms|
      && s.somaDuracao == SumDuration(ms)
      && s.mediaDuracao == s.somaDuracao / (s.total as real)
      && s.maisCurta.duracao <= s.mediaDuracao <= s.maisLonga.duracao
      && (exists i :: FirstLongestAt(ms, i) && ms[i] == s.maisLonga)
      && (exists i :: FirstShortestAt(ms, i) && ms[i] == s.maisCurta)
      && s.distribuicaoGeneros == GenreDistribution(ms)
      && SumValues(s.distribuicaoGeneros) == s.total
      && (forall j :: 0 <= j < |ms| ==> s.anoMaisAntigo <= ms[j].ano <= s.anoMaisRecente)
      && (exists j :: 0 <= j < |ms| && ms[j].ano == s.anoMaisAntigo)
      && (exists j :: 0 <= j < |ms| && ms[j].ano == s.anoMaisRecente)
      && s.periodoAnos == s.anoMaisRecente - s.anoMaisAntigo >= 0
  {
    if |ms| == 0 {
      return NoTracks;
    }
    var soma := SumDuration(ms);
    var media := soma / (|ms| as real);
    var longa, curta := LongestIndex(ms), ShortestIndex(ms);
    MeanBetweenExtremes(ms);
    var generos := GenreTally(ms);
    var antigo, recente := OldestYear(ms), NewestYear(ms);
    assert FirstLongestAt(ms, longa) && FirstShortestAt(ms, curta);
    s := Summary(|ms|, soma, media, ms[longa], ms[curta], generos, antigo, recente, recente - antigo);
  }

  /** On the seed catalog the distribution is R&B: 2, Rock: 2, Pop: 1. */
  lemma SeedDistribution()
    ensures GenreDistribution(Seed()) == map["R&B" := 2, "Rock" := 2, "Pop" := 1]
  {
    var s := Seed();
    var s1 := [s[0]];
    var s2 := s1 + [s[1]];
    var s3 := s2 + [s[2]];
    var s4 := s3 + [s[3]];
    assert s1[..0] == [] && s2[..1] == s1 && s3[..2] == s2 && s4[..3] == s3 && s[..4] == s4;
    assert "R&B" != "Pop" by { assert "R&B"[0] != "Pop"[0]; }
    assert "R&B" != "Rock" && "Rock" != "Pop" by { assert |"R&B"| == |"Pop"| != |"Rock"|; }
    assert GenreDistribution(s1) == map["R&B" := 1];
    assert GenreDistribution(s2) == map["R&B" := 2];
    assert GenreDistribution(s3) == map["R&B" := 2, "Rock" := 1];
    assert GenreDistribution(s4) == map["R&B" := 2, "Rock" := 2];
  }

  // ---------------------------------------------------------------------
  // The tally as written, through a plain JavaScript object

  /** What a property of the `generos` object holds: a number, or a string
      made by `+ 1` on a value that was not a number. */
  datatype Slot = Tally(n: nat) | Concatenated

  /** The names every plain object inherits from `Object.prototype`, apart
      from `__proto__`; each reads as a function, so `(generos[g] || 0) + 1`
      concatenates instead of adding. */
  const InheritedMembers: set<string> := {
    "constructor", "hasOwnProperty", "isPrototypeOf", "propertyIsEnumerable",
    "toLocaleString", "toString", "valueOf",
    "__defineGetter__", "__defineSetter__", "__lookupGetter__", "__lookupSetter__" }

  /** Reading it gives the prototype object; assigning a string to it is
      silently ignored. */
  const ProtoAccessor: string := "__proto__"

  function Bump(s: Slot): Slot {
    match s
    case Tally(n) => Tally(n + 1)
    case Concatenated => Concatenated
  }

  /** One step of `generos[m.genero] = (generos[m.genero] || 0) + 1`. */
  function ObjectStep(generos: map<string, Slot>, g: string): map<string, Slot> {
    if g == ProtoAccessor then generos
    else if g in generos then generos[g := Bump(generos[g])]
    else if g in InheritedMembers then generos[g := Concatenated]
    else generos[g := Tally(1)]
  }

  /** The `generos` object the source builds, as its own properties. */
  function ObjectTally(ms: seq<Track>): (generos: map<string, Slot>)
    ensures |generos| <= |ms|
  {
    if ms == [] then map[] else ObjectStep(ObjectTally(ms[..|ms| - 1]), ms[|ms| - 1].genero)
  }

  /** For every ordinary genre the object holds the intended count. */
  lemma {:induction false} ObjectTallyAgrees(ms: seq<Track>, g: string)
    requires g !in InheritedMembers && g != ProtoAccessor
    ensures g in ObjectTally(ms) <==> g in Genres(ms)
    ensures g in ObjectTally(ms) ==> ObjectTally(ms)[g] == Tally(CountGenre(ms, g))
  {
    if ms != [] {
      var init := ms[..|ms| - 1];
      assert ms == init + [ms[|ms| - 1]];
      assert Genres(ms) == Genres(init) + {ms[|ms| - 1].genero};
      ObjectTallyAgrees(init, g);
      CountGenrePositive(init, g);
    }
  }

  /** A genre called `__proto__` never appears in the object. */
  lemma {:induction false} ProtoGenreNeverTallied(ms: seq<Track>)
    ensures ProtoAccessor !in ObjectTally(ms)
  {
    if ms != [] {
      ProtoGenreNeverTallied(ms[..|ms| - 1]);
    }
  }

  /** A genre named after an inherited member never holds a count. */
  lemma {:induction false} InheritedGenreMangled(ms: seq<Track>, g: string)
    requires g in InheritedMembers
    ensures g in ObjectTally(ms) <==> g in Genres(ms)
    ensures g in ObjectTally(ms) ==> ObjectTally(ms)[g] == Concatenated
  {
    if ms != [] {
      var init := ms[..|ms| - 1];
      assert ms == init + [ms[|ms| - 1]];
      assert Genres(ms) == Genres(init) + {ms[|ms| - 1].genero};
      InheritedGenreMangled(init, g);
    }
  }

  /** One track of genre "constructor": the object holds a string where the
      distribution holds 1. */
  lemma ConstructorGenreCounterexample()
    ensures var ms := [Track(1, "T", "A", 3.0, "constructor", 2000)];
            && GenreDistribution(ms)["constructor"] == 1
            && ObjectTally(ms)["constructor"] == Concatenated
  {
    var ms := [Track(1, "T", "A", 3.0, "constructor", 2000)];
    assert ms[..0] == [];
  }
}
