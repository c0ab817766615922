/**
 * The ledger `SistemaDeDoacoes`: the list of donations kept in memory and
 * mirrored to the file, with append-and-save, full reload and the total.
 */
module Ledger {
  import opened Wrappers
  import opened Codec
  import opened TextFile
  import Amount

  /** The lines the ledger writes: one encoded record per entry, in list order. */
  function EncodeAll(ds: seq<Doacao>): (ls: seq<string>)
    ensures |ls| == |ds|
    ensures forall i :: 0 <= i < |ds| ==> ls[i] == ToString(ds[i])
  {
    if ds == [] then [] else [ToString(ds[0])] + EncodeAll(ds[1..])
  }

  lemma EncodeAllAppend(ds: seq<Doacao>, d: Doacao)
    ensures EncodeAll(ds + [d]) == EncodeAll(ds) + [ToString(d)]
  {
  }

  /** The text `salvarDoacoes` leaves in the file. */
  function Saved(ds: seq<Doacao>): string {
    WriteLines(EncodeAll(ds))
  }

  /** What a reload ends with: the records appended so far and, if a line failed, why. */
  datatype Loaded = Loaded(entries: seq<Doacao>, failure: Option<DecodeError>)

  /** Decodes the lines in order, stopping at the first one that fails. */
  function DecodeLines(ls: seq<string>): (r: Loaded)
    ensures r.failure.None? ==> |r.entries| == |ls|
    ensures r.failure.Some? ==> |r.entries| < |ls| && FromString(ls[|r.entries|]) == Err(r.failure.value)
    ensures forall i :: 0 <= i < |r.entries| ==> FromString(ls[i]) == Ok(r.entries[i])
  {
    if ls == [] then Loaded([], None)
    else match FromString(ls[0])
      case Err(e) => Loaded([], Some(e))
      case Ok(d) =>
        var rest := DecodeLines(ls[1..]);
        Loaded([d] + rest.entries, rest.failure)
  }

  /** One step of the reload: the first line either fails, ending it, or adds its record in front of the rest. */
  lemma DecodeStep(linha: string, ls: seq<string>)
    ensures FromString(linha).Err? ==> DecodeLines([linha] + ls) == Loaded([], Some(FromString(linha).error))
    ensures FromString(linha).Ok? ==>
              DecodeLines([linha] + ls) == Loaded([FromString(linha).value] + DecodeLines(ls).entries, DecodeLines(ls).failure)
  {
    assert ([linha] + ls)[0] == linha;
    assert ([linha] + ls)[1..] == ls;
  }

  lemma ConcatAssociative(a: seq<Doacao>, b: seq<Doacao>, c: seq<Doacao>)
    ensures a + (b + c) == (a + b) + c
  {
  }

  /** What `carregarDoacoes` does with the file: an absent or unreadable file gives no records and no failure. */
  function Load(f: FileState): Loaded {
    match f
    case Absent => Loaded([], None)
    case Unreadable => Loaded([], None)
    case Text(t) => DecodeLines(ReadLines(t))
  }

  /** A record that survives the file: its kind holds neither the field separator nor a line break. */
  predicate Storable(d: Doacao) {
    Separator !in d.tipo && OneLine(d.tipo)
  }

  lemma {:induction false} EncodedLinesAreOneLine(ds: seq<Doacao>)
    requires forall i :: 0 <= i < |ds| ==> Storable(ds[i])
    ensures forall k :: 0 <= k < |EncodeAll(ds)| ==> OneLine(EncodeAll(ds)[k])
  {
    forall k | 0 <= k < |ds| ensures OneLine(ToString(ds[k])) {
      var d := ds[k];
      var s := ToString(d);
      forall i | 0 <= i < |s| ensures !IsLineBreak(s[i]) {
        if i < |d.tipo| {
          assert s[i] == d.tipo[i];
        }
      }
    }
  }

  /** When every line decodes, the reload yields exactly their records, in order, and no failure. */
  lemma DecodeAllOk(ls: seq<string>, ds: seq<Doacao>)
    requires |ls| == |ds| && forall i :: 0 <= i < |ls| ==> FromString(ls[i]) == Ok(ds[i])
    ensures DecodeLines(ls) == Loaded(ds, None)
  {
    var r := DecodeLines(ls);
    assert r.failure.None?;
    assert r.entries == ds;
  }

  /** One undecodable line anywhere makes the whole reload fail, at that line or an earlier one. */
  lemma BadLineFailsLoad(ls: seq<string>, k: nat)
    requires k < |ls| && FromString(ls[k]).Err?
    ensures DecodeLines(ls).failure.Some? && |DecodeLines(ls).entries| <= k
  {
  }

  lemma DecodeEncoded(ds: seq<Doacao>)
    requires forall i :: 0 <= i < |ds| ==> Separator !in ds[i].tipo
    ensures DecodeLines(EncodeAll(ds)) == Loaded(ds, None)
  {
    forall i | 0 <= i < |ds| ensures FromString(EncodeAll(ds)[i]) == Ok(ds[i]) {
      FromStringToString(ds[i]);
    }
    DecodeAllOk(EncodeAll(ds), ds);
  }

  /** Saving then reloading reproduces the list when every record is storable. */
  lemma LoadSaved(ds: seq<Doacao>)
    requires forall i :: 0 <= i < |ds| ==> Storable(ds[i])
    ensures Load(Text(Saved(ds))) == Loaded(ds, None)
  {
    EncodedLinesAreOneLine(ds);
    ReadLinesWriteLines(EncodeAll(ds));
    DecodeEncoded(ds);
  }

  /** The sum of the amounts, in list order; with no negative amount it is not negative. */
  function Total(ds: seq<Doacao>): (t: real)
    ensures (forall i :: 0 <= i < |ds| ==> !ds[i].quantidade.negative) ==> t >= 0.0
  {
    if ds == [] then 0.0 else Amount.Value(ds[0].quantidade) + Total(ds[1..])
  }

  lemma {:induction false} TotalAppend(ds: seq<Doacao>, d: Doacao)
    ensures Total(ds + [d]) == Total(ds) + Amount.Value(d.quantidade)
  {
    if ds == [] {
      assert ds + [d] == [d];
    } else {
      assert (ds + [d])[1..] == ds[1..] + [d];
      TotalAppend(ds[1..], d);
    }
  }

  /** The ledger object: the in-memory list `doacoes` and the file it mirrors. */
  class SistemaDeDoacoes {
    var doacoes: seq<Doacao>
    const arquivo: Arquivo

    /** The file holds exactly what a reload would turn into the current list. */
    ghost predicate Mirrored()
      reads this, arquivo
    {
      Load(arquivo.state) == Loaded(doacoes, None)
    }

    /** The field initialiser `doacoes = new ArrayList<>()`, before the first load. */
    constructor Vazio(f: Arquivo)
      ensures doacoes == [] && arquivo == f
    {
      doacoes := [];
      arquivo := f;
    }

    /**
     * The public constructor: an empty list, then `carregarDoacoes`. A line
     * that fails to decode escapes as an exception, so no ledger results.
     */
    static method Abrir(f: Arquivo) returns (r: Result<SistemaDeDoacoes, DecodeError>)
      ensures Load(f.state).failure.None? <==> r.Ok?
      ensures r.Ok? ==> fresh(r.value) && r.value.arquivo == f && r.value.doacoes == Load(f.state).entries
      ensures r.Ok? ==> r.value.Mirrored()
      ensures r.Err? ==> Load(f.state).failure == Some(r.error)
    {
      var sistema := new SistemaDeDoacoes.Vazio(f);
      var falha := sistema.CarregarDoacoes();
      if falha.Some? {
        r := Err(falha.value);
      } else {
        r := Ok(sistema);
      }
    }

    /** Appends the record and saves the whole list. */
    method AdicionarDoacao(doacao: Doacao)
      modifies this, arquivo
      ensures doacoes == old(doacoes) + [doacao]
      ensures arquivo.state == Text(Saved(doacoes))
      ensures (forall i :: 0 <= i < |doacoes| ==> Storable(doacoes[i])) ==> Mirrored()
    {
      doacoes := doacoes + [doacao];
      SalvarDoacoes();
    }

    /** Overwrites the file with one encoded line per record, in list order; a write error is swallowed. */
    method SalvarDoacoes()
      modifies arquivo
      ensures arquivo.state == Text(Saved(doacoes))
      ensures (forall i :: 0 <= i < |doacoes| ==> Storable(doacoes[i])) ==> Mirrored()
    {
      var texto := "";
      for i := 0 to |doacoes|
        invariant texto == Saved(doacoes[..i])
      {
        assert doacoes[..i + 1] == doacoes[..i] + [doacoes[i]];
        EncodeAllAppend(doacoes[..i], doacoes[i]);
        WriteLinesAppend(EncodeAll(doacoes[..i]), ToString(doacoes[i]));
        texto := texto + ToString(doacoes[i]) + NewLine;
      }
      assert doacoes[..|doacoes|] == doacoes;
      arquivo.state := Text(texto);
      if forall i :: 0 <= i < |doacoes| ==> Storable(doacoes[i]) {
        LoadSaved(doacoes);
      }
    }

    /**
     * Clears the list and appends the record of each line of the file in
     * turn. An absent or unreadable file leaves the list empty; the first
     * line that fails to decode stops the load with the records before it
     * already appended, and its error is returned.
     */
    method CarregarDoacoes() returns (falha: Option<DecodeError>)
      modifies this
      ensures doacoes == Load(arquivo.state).entries && falha == Load(arquivo.state).failure
    {
      doacoes := [];
      falha := None;
      if arquivo.state.Text? {
        ghost var carregado := Load(arquivo.state);
        var resto := arquivo.state.content;
        ghost var pendentes := ReadLines(resto);
        var proxima := ReadLine(resto);
        while proxima.Some?
          invariant proxima == ReadLine(resto) && pendentes == ReadLines(resto)
          invariant carregado == Loaded(doacoes + DecodeLines(pendentes).entries, DecodeLines(pendentes).failure)
          decreases |resto|
        {
          var (linha, depois) := proxima.value;
          ReadLinesStep(resto);
          var lida := FromString(linha);
          DecodeStep(linha, ReadLines(depois));
          if lida.Err? {
            falha := Some(lida.error);
            return;
          }
          ghost var tail := DecodeLines(ReadLines(depois)).entries;
          ConcatAssociative(doacoes, [lida.value], tail);
          doacoes := doacoes + [lida.value];
          resto := depois;
          pendentes := ReadLines(resto);
          proxima := ReadLine(resto);
        }
      }
    }

    /** The sum of the amounts of the records in the list. */
    function CalcularTotalDoacoes(): (total: real)
      reads this
      ensures total == Total(doacoes)
      ensures doacoes == [] ==> total == 0.0
      ensures (forall i :: 0 <= i < |doacoes| ==> !doacoes[i].quantidade.negative) ==> total >= 0.0
    {
      Total(doacoes)
    }
  }

  /**
   * Adding a storable record to a ledger of storable records and then
   * opening a new ledger on the same file gives back the same list.
   */
  method ReloadAfterAdd(sistema: SistemaDeDoacoes, doacao: Doacao) returns (reaberto: SistemaDeDoacoes)
    requires forall i :: 0 <= i < |sistema.doacoes| ==> Storable(sistema.doacoes[i])
    requires Storable(doacao)
    modifies sistema, sistema.arquivo
    ensures sistema.doacoes == old(sistema.doacoes) + [doacao]
    ensures fresh(reaberto) && reaberto.arquivo == sistema.arquivo && reaberto.doacoes == sistema.doacoes
  {
    sistema.AdicionarDoacao(doacao);
    var r := SistemaDeDoacoes.Abrir(sistema.arquivo);
    reaberto := r.value;
  }
}
