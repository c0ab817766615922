/** Concrete lines and ledgers, each stating what the code does with them. */
module Scenarios {
  import opened Wrappers
  import opened Digits
  import opened JavaSplit
  import opened Codec
  import Amount
  import IsoDate
  import Ledger

  /** "10" is read as ten: no point and no fraction digits are needed. */
  lemma ParseTen()
    ensures Amount.Parse("10") == Some(Amount.Decimal(false, 10, []))
  {
    assert Amount.Unsign("10") == (false, "10");
    assert IndexOf("10", '.') == 2 by {
      assert "10"[1..] == "0";
      assert "0"[1..] == "";
    }
    assert "10"[..2] == "10";
    assert Value("10") == 10 by {
      assert "10"[..1] == "1";
      assert "1"[..0] == "";
    }
  }

  /** "10.50" is read as 10.5: the trailing zero is dropped and the value kept. */
  lemma ParseTrailingZero()
    ensures Amount.Parse("10.50") == Some(Amount.Decimal(false, 10, [5]))
    ensures Amount.Value(Amount.Parse("10.50").value) == 10.5
  {
    assert Amount.Unsign("10.50") == (false, "10.50");
    assert IndexOf("10.50", '.') == 2 by {
      assert "10.50"[1..] == "0.50";
      assert "0.50"[1..] == ".50";
    }
    assert "10.50"[..2] == "10" && "10.50"[3..] == "50";
    assert Amount.Parts("10.50") == ("10", "50");
    assert Value("10") == 10 by {
      assert "10"[..1] == "1";
      assert "1"[..0] == "";
    }
    assert DigitsOf("50") == [5, 0];
    assert [5, 0][..1] == [5];
    assert Amount.FractionValue([5]) == 0.5 by {
      assert [5][1..] == [];
    }
  }

  /** Parsing does not undo rendering: "10" reads as ten, whose text is "10.0", as with Double.toString. */
  lemma RenderOfParsedTen()
    ensures Amount.Render(Amount.Parse("10").value) == "10.0"
  {
    ParseTen();
    assert Numeral(10) == "10" by {
      assert Numeral(1) == "1";
    }
  }

  /** An empty line has one (empty) field, so reading field 1 fails. */
  lemma EmptyLine()
    ensures FromString("") == Err(MissingField(1))
  {
  }

  /** A lone separator leaves no field at all: even field 0 is missing. */
  lemma LoneSeparator()
    ensures FromString(";") == Err(MissingField(0))
  {
  }

  /** Two fields: the amount is read, then field 2 is missing. */
  lemma TwoFields()
    ensures FromString("food;10") == Err(MissingField(2))
  {
    assert "food;10" == "food" + [';'] + "10";
    ParseTen();
    DecodeTwoFields("food", "10");
  }

  /** A trailing separator adds an empty third field, which split drops. */
  lemma TrailingSeparator()
    ensures FromString("food;10;") == Err(MissingField(2))
  {
    assert "food;10;" == "food" + [';'] + "10" + [';'];
    ParseTen();
    DecodeTwoFields("food", "10");
  }

  /** "abc" is not an amount. */
  lemma BadAmountLine()
    ensures FromString("food;abc;2024-01-01") == Err(BadAmount("abc"))
  {
    assert Amount.Parse("abc") == None by {
      assert !IsDigit('a');
    }
    assert "food;abc;2024-01-01" == "food" + [';'] + "abc" + [';'] + "2024-01-01";
    DecodeThreeFields("food", "abc", "2024-01-01");
  }

  /** "not-a-date" is not a date. */
  lemma BadDateLine()
    ensures FromString("food;10;not-a-date") == Err(BadDate("not-a-date"))
  {
    ParseTen();
    assert IsoDate.Parse("not-a-date") == None;
    assert "food;10;not-a-date" == "food" + [';'] + "10" + [';'] + "not-a-date";
    DecodeThreeFields("food", "10", "not-a-date");
  }

  /** A well-formed text can still name a day that does not exist. */
  lemma NoThirtiethOfFebruary()
    ensures IsoDate.Parse("2024-02-30") == None
  {
    var s := "2024-02-30";
    assert s[..4] == "2024" && s[5..7] == "02" && s[8..] == "30";
    assert Value("02") == 2 by {
      assert "02"[..1] == "0";
      assert "0"[..0] == "";
    }
    assert Value("2024") == 2024 by {
      assert "2024"[..3] == "202";
      assert "202"[..2] == "20";
      assert "20"[..1] == "2";
      assert "2"[..0] == "";
    }
    assert Value("30") == 30 by {
      assert "30"[..1] == "3";
      assert "3"[..0] == "";
    }
  }

  /** Amounts 10.5, 20 and 5.25 add up to 35.75, exactly. */
  lemma TotalOfThree(tipo: string, data: IsoDate.Data)
    ensures Ledger.Total([Doacao(tipo, Amount.Decimal(false, 10, [5]), data),
                          Doacao(tipo, Amount.Decimal(false, 20, []), data),
                          Doacao(tipo, Amount.Decimal(false, 5, [2, 5]), data)]) == 35.75
  {
    assert Amount.FractionValue([2, 5]) == 0.25 by {
      assert [2, 5][1..] == [5];
      assert [5][1..] == [];
    }
    assert Amount.FractionValue([5]) == 0.5 by {
      assert [5][1..] == [];
    }
    var a := Doacao(tipo, Amount.Decimal(false, 10, [5]), data);
    var b := Doacao(tipo, Amount.Decimal(false, 20, []), data);
    var c := Doacao(tipo, Amount.Decimal(false, 5, [2, 5]), data);
    assert [a, b, c][1..] == [b, c];
    assert [b, c][1..] == [c];
    assert [c][1..] == [];
    assert Ledger.Total([c]) == 5.25;
    assert Ledger.Total([b, c]) == 25.25;
  }
}
