/**
 * One donation (`Doacao`) and its one-line text form `tipo;quantidade;data`,
 * as written by `Doacao.toString` and read by `Doacao.fromString`.
 */
module Codec {
  import opened Wrappers
  import opened JavaSplit
  import Amount
  import IsoDate

  const Separator: char := ';'

  /** A donation: its kind, its quantity and its date. The getters are the field names. */
  datatype Doacao = Doacao(tipo: string, quantidade: Amount.Quantidade, data: IsoDate.Data)

  /**
   * Why `fromString` throws: an index past the end of the split fields
   * (ArrayIndexOutOfBoundsException), an amount `Double.parseDouble` rejects
   * (NumberFormatException), or a date `LocalDate.parse` rejects
   * (DateTimeParseException).
   */
  datatype DecodeError = MissingField(index: nat) | BadAmount(text: string) | BadDate(text: string)

  function ToString(d: Doacao): string {
    d.tipo + [Separator] + Amount.Render(d.quantidade) + [Separator] + IsoDate.Render(d.data)
  }

  /**
   * Reads the split fields in the order the source does: field 0, field 1,
   * the amount, field 2, the date. Fields after the third are never looked at.
   */
  function DecodeFields(partes: seq<string>): (r: Result<Doacao, DecodeError>)
    ensures |partes| < 3 ==> r.Err?
    ensures |partes| >= 3 && Amount.Parse(partes[1]).Some? && IsoDate.Parse(partes[2]).Some? ==> r.Ok?
    ensures r.Ok? ==> r.value.tipo == partes[0]
                      && Amount.Parse(partes[1]) == Some(r.value.quantidade)
                      && IsoDate.Parse(partes[2]) == Some(r.value.data)
  {
    if |partes| < 1 then Err(MissingField(0))
    else if |partes| < 2 then Err(MissingField(1))
    else match Amount.Parse(partes[1])
      case None => Err(BadAmount(partes[1]))
      case Some(quantidade) =>
        if |partes| < 3 then Err(MissingField(2))
        else match IsoDate.Parse(partes[2])
          case None => Err(BadDate(partes[2]))
          case Some(data) => Ok(Doacao(partes[0], quantidade, data))
  }

  /** Splits the line on the separator, then reads its fields. */
  function FromString(linha: string): (r: Result<Doacao, DecodeError>)
    ensures |Split(linha, Separator)| < 3 ==> r.Err?
    ensures r.Ok? ==> Separator !in r.value.tipo
  {
    DecodeFields(Split(linha, Separator))
  }

  /** Fields agreeing up to the third decode alike. */
  lemma DecodeFieldsFirstThree(p1: seq<string>, p2: seq<string>)
    requires |p1| >= 3 && |p2| >= 3 && p1[..3] == p2[..3]
    ensures DecodeFields(p1) == DecodeFields(p2)
  {
    assert p1[0] == p1[..3][0] && p1[1] == p1[..3][1] && p1[2] == p1[..3][2];
  }

  /** A line's decoding depends on its first three fields only. */
  lemma {:induction false} FromStringFirstThree(l1: string, l2: string)
    requires |Split(l1, Separator)| >= 3 && |Split(l2, Separator)| >= 3
    requires Split(l1, Separator)[..3] == Split(l2, Separator)[..3]
    ensures FromString(l1) == FromString(l2)
  {
    DecodeFieldsFirstThree(Split(l1, Separator), Split(l2, Separator));
  }

  /** The encoded line splits back into exactly the three texts it was built from. */
  lemma {:induction false} SplitToString(d: Doacao)
    requires Separator !in d.tipo
    ensures Split(ToString(d), Separator) == [d.tipo, Amount.Render(d.quantidade), IsoDate.Render(d.data)]
  {
    SplitExactlyThree(d.tipo, Amount.Render(d.quantidade), IsoDate.Render(d.data), Separator);
  }

  /** Round trip: a record whose kind has no separator is read back unchanged (an empty kind included). */
  lemma {:induction false} FromStringToString(d: Doacao)
    requires Separator !in d.tipo
    ensures FromString(ToString(d)) == Ok(d)
  {
    SplitToString(d);
    Amount.ParseRender(d.quantidade);
    IsoDate.ParseRender(d.data);
  }

  /** A separator inside the kind breaks the round trip: such a record never comes back as itself. */
  lemma {:induction false} SeparatorInTipoBreaksRoundTrip(d: Doacao)
    requires Separator in d.tipo
    ensures FromString(ToString(d)) != Ok(d)
  {
    var r := FromString(ToString(d));
    if r.Ok? {
      assert Separator !in r.value.tipo;
      assert r.value.tipo != d.tipo;
    }
  }

  /** Anything after a separator that follows the date is ignored. */
  lemma {:induction false} ExtraFieldsIgnored(d: Doacao, more: string)
    requires Separator !in d.tipo
    ensures FromString(ToString(d) + [Separator] + more) == Ok(d)
  {
    var a, b, c := d.tipo, Amount.Render(d.quantidade), IsoDate.Render(d.data);
    assert ToString(d) + [Separator] + more == a + [Separator] + b + [Separator] + c + [Separator] + more;
    SplitThreeAndMore(a, b, c, Separator, more);
    SplitToString(d);
    FromStringFirstThree(ToString(d) + [Separator] + more, ToString(d));
    FromStringToString(d);
  }

  /** Every decoded record encodes to a line that decodes to it again. */
  lemma {:induction false} FromStringStable(linha: string)
    requires FromString(linha).Ok?
    ensures FromString(ToString(FromString(linha).value)) == FromString(linha)
  {
    FromStringToString(FromString(linha).value);
  }

  /** A line of two fields: a bad amount fails on the amount, a good one on the missing field 2. */
  lemma DecodeTwoFields(a: string, b: string)
    requires Separator !in a && Separator !in b && b != ""
    ensures var expected := if Amount.Parse(b).None? then Err(BadAmount(b)) else Err(MissingField(2));
            FromString(a + [Separator] + b) == expected && FromString(a + [Separator] + b + [Separator]) == expected
  {
    SplitTwo(a, b, Separator);
    SplitTwoTrailing(a, b, Separator);
  }

  /** A line of three fields fails on the amount first, then on the date, and otherwise yields all three. */
  lemma DecodeThreeFields(a: string, b: string, c: string)
    requires Separator !in a && Separator !in b && Separator !in c && c != ""
    ensures FromString(a + [Separator] + b + [Separator] + c) ==
            if Amount.Parse(b).None? then Err(BadAmount(b))
            else if IsoDate.Parse(c).None? then Err(BadDate(c))
            else Ok(Doacao(a, Amount.Parse(b).value, IsoDate.Parse(c).value))
  {
    SplitExactlyThree(a, b, c, Separator);
  }

  /** An amount's text is never read as a date: it has no '-' past its first character. */
  lemma AmountTextIsNoDate(q: Amount.Quantidade)
    ensures IsoDate.Parse(Amount.Render(q)) == None
  {
    var s := Amount.Render(q);
    if |s| == 10 {
      assert s[4] != '-';
    }
  }

  /**
   * One separator inside the kind shifts every field by one: the saved line
   * then fails to decode, on the part after the separator when it is no
   * amount, and otherwise on the amount's text read as the date.
   */
  lemma {:induction false} OneSeparatorInTipoFailsDecode(d: Doacao, a: string, b: string)
    requires d.tipo == a + [Separator] + b && Separator !in a && Separator !in b
    ensures FromString(ToString(d)) ==
            if Amount.Parse(b).None? then Err(BadAmount(b)) else Err(BadDate(Amount.Render(d.quantidade)))
  {
    var amount, date := Amount.Render(d.quantidade), IsoDate.Render(d.data);
    assert ToString(d) == a + [Separator] + b + [Separator] + amount + [Separator] + date;
    SplitThreeAndMore(a, b, amount, Separator, date);
    AmountTextIsNoDate(d.quantidade);
  }
}
