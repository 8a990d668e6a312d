/** The catalog's data: stored track records, the raw records a bulk insert
    receives, the outcomes the routes report, and JavaScript truthiness as the
    bulk insert applies it. */
module Tracks {

  /** A stored track (one element of `musicas`). Durations are fractional
      minutes, kept as exact reals. */
  datatype Track = Track(
    id: int,
    titulo: string,
    autor: string,
    duracao: real,
    genero: string,
    ano: int)

  /** The fields a bulk-insert entry may carry; `None` is a missing field. */
  datatype RawTrack = RawTrack(
    titulo: Option<string>,
    autor: Option<string>,
    duracao: Option<real>,
    genero: Option<string>,
    ano: Option<int>)

  /** One entry of the JSON array posted to the bulk insert: `null`, any other
      non-object value (a number, a string, a boolean, an array — all of whose
      field lookups give `undefined`), or an object. */
  datatype RawItem = JsonNull | NonObject(json: string) | Obj(fields: RawTrack)

  datatype Option<T> = None | Some(value: T)

  /** Why an argument was refused. */
  datatype Invalid = NonPositiveMax | NotAnArray | EmptyArray

  datatype Error =
    | NotFound(pesquisado: Option<string>)  // the lower-cased genre, when a genre was searched
    | InvalidArgument(cause: Invalid)
    | UncaughtTypeError(indice: nat)        // reading a field of the `null` entry at this index

  datatype Result<T> = Success(value: T) | Failure(error: Error)

  /** The genre stored when an insert leaves it out. */
  const DefaultGenre: string := "Desconhecido"

  /** Truthiness of an optional string field: present and non-empty. */
  predicate TruthyText(o: Option<string>) {
    o.Some? && o.value != []
  }

  /** Truthiness of an optional number field: present and non-zero (a JSON
      body cannot carry NaN). */
  predicate TruthyReal(o: Option<real>) {
    o.Some? && o.value != 0.0
  }

  predicate TruthyInt(o: Option<int>) {
    o.Some? && o.value != 0
  }

  /** `musica.titulo && musica.autor && musica.duracao` for a non-null entry. */
  predicate Acceptable(item: RawItem)
    ensures Acceptable(item) ==> item.Obj? && item.fields.titulo.Some? && item.fields.autor.Some? && item.fields.duracao.Some?
  {
    item.Obj? && TruthyText(item.fields.titulo) && TruthyText(item.fields.autor) && TruthyReal(item.fields.duracao)
  }

  /** The record the bulk insert stores for an accepted entry: the given id,
      the three required fields verbatim, and the defaults for a falsy genre
      and year. */
  function Admit(item: RawItem, id: int, currentYear: int): (t: Track)
    requires Acceptable(item)
    ensures t.id == id && t.titulo != [] && t.autor != [] && t.duracao != 0.0 && t.genero != []
  {
    var f := item.fields;
    Track(id, f.titulo.value, f.autor.value, f.duracao.value,
          if TruthyText(f.genero) then f.genero.value else DefaultGenre,
          if TruthyInt(f.ano) then f.ano.value else currentYear)
  }

  /** An accepted record keeps the entry's required fields, and takes the
      default genre and the current year exactly when the entry's own are
      falsy (or already equal to the default). */
  lemma AdmitDefaults(item: RawItem, id: int, currentYear: int)
    requires Acceptable(item)
    ensures var t := Admit(item, id, currentYear);
            && t.titulo == item.fields.titulo.value
            && t.autor == item.fields.autor.value
            && t.duracao == item.fields.duracao.value
            && (t.genero == DefaultGenre <==> !TruthyText(item.fields.genero) || item.fields.genero.value == DefaultGenre)
            && (t.ano == currentYear <==> !TruthyInt(item.fields.ano) || item.fields.ano.value == currentYear)
            && (TruthyText(item.fields.genero) ==> t.genero == item.fields.genero.value)
            && (TruthyInt(item.fields.ano) ==> t.ano == item.fields.ano.value)
  {
  }

  /** The five records the catalog starts with (ids 1 to 5). */
  function Seed(): seq<Track> {
    [ Track(1, "Best Part", "Daniel Caesar", 3.25, "R&B", 2017),
      Track(2, "Get You", "Daniel Caesar", 4.80, "R&B", 2016),
      Track(3, "Yellow", "Coldplay", 3.50, "Rock", 2000),
      Track(4, "Bohemian Rhapsody", "Queen", 5.92, "Rock", 1975),
      Track(5, "Blinding Lights", "The Weeknd", 3.20, "Pop", 2019) ]
  }

  /** The id given to the first record inserted after the seed. */
  const SeedNextId: int := 6

  /** Every stored id is below the counter. */
  ghost predicate IdsBelow(ms: seq<Track>, nextId: int) {
    forall i :: 0 <= i < |ms| ==> ms[i].id < nextId
  }

  /** No two stored records share an id. */
  ghost predicate IdsDistinct(ms: seq<Track>) {
    forall i, j :: 0 <= i < j < |ms| ==> ms[i].id != ms[j].id
  }
}
