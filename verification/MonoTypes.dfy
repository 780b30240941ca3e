/**
 Bank transactions as the importer sees them: provider downloads, stored rows, and the content
 fingerprint that recognises a payment whose provider ID was regenerated.
 */
module MonoTypes {
  import opened Ascii
  import opened Options

  // A JSON number field: missing, an integer, a finite fraction, or something `Number` cannot read.
  datatype Number = Absent | Integral(n: int) | Fractional | NotFinite

  datatype Content = Content(
    date: Option<int>,  // milliseconds; None when missing or unparsable
    amount: Number,
    balance: Number,
    kind: string,
    currency: string,
    narration: string,
    metadata: string)

  datatype Categories = Categories(category: string, subCategory: string, manualCategory: string, source: string)

  // One element of a provider download.  An empty ID string is JavaScript's falsy value.
  datatype Download = Download(id: string, altId: string, content: Content, suggested: Categories)

  // Row IDs are numbered in the order in which `localeCompare` sorts them.
  type RowId = nat

  datatype Row = Row(
    id: RowId,
    createdAt: int,
    canonical: string,       // monoTransactionId
    aliases: seq<string>,    // providerIdAliases
    content: Content,
    categories: Categories,
    deleted: bool)

  const MAX_SAFE_INTEGER: int := 0x1F_FFFF_FFFF_FFFF

  datatype Fingerprint = Fingerprint(
    date: int,
    amount: int,
    balance: Option<int>,
    kind: string,
    currency: string,
    narration: seq<string>)

  predicate SafeInteger(x: Number) {
    x.Integral? && -MAX_SAFE_INTEGER <= x.n <= MAX_SAFE_INTEGER
  }

  // The words of a narration.  Trimmed narrations with collapsed spaces are equal iff their words are.
  function Words(s: string): seq<string> {
    if s == [] then []
    else if IsSpace(s[0]) then Words(s[1..])
    else if |s| == 1 || IsSpace(s[1]) then [[s[0]]] + Words(s[1..])
    else
      var rest := Words(s[1..]);
      if rest == [] then [[s[0]]] else [[s[0]] + rest[0]] + rest[1..]
  }

  // None when the identity is incomplete; such a transaction is matched by ID only.
  function FingerprintOf(c: Content): Option<Fingerprint> {
    if c.date.None? || !SafeInteger(c.amount) || !(c.balance.Absent? || SafeInteger(c.balance))
       || c.kind == "" || Words(c.narration) == [] then
      None
    else
      Some(Fingerprint(
        c.date.value,
        c.amount.n,
        if c.balance.Absent? then None else Some(c.balance.n),
        Lower(c.kind),
        Upper(if c.currency == "" then "NGN" else c.currency),
        Words(c.narration)))
  }

  // What an upsert writes to the content columns of a row.
  function StoredContent(c: Content): Content {
    c.(currency := if c.currency == "" then "NGN" else c.currency,
       balance := if c.balance.NotFinite? then Absent else c.balance)
  }

  // Storing a transaction does not change its fingerprint, so later downloads can be matched to it.
  lemma {:induction false} StoringKeepsFingerprint(c: Content)
    requires FingerprintOf(c).Some?
    ensures FingerprintOf(StoredContent(c)) == FingerprintOf(c)
  {
  }

  function ProviderId(tx: Download): string {
    if tx.id != "" then tx.id else tx.altId
  }

  // Every provider ID under which a row is known.
  function ProviderIds(row: Row): seq<string> {
    [row.canonical] + row.aliases
  }

  ghost predicate Knows(row: Row, providerId: string) {
    providerId in ProviderIds(row)
  }
}
