/**
 * MetodosUteis: the decimal's string form behind AddPorcentagem, the dd/MM/yyyy date format and
 * the pt-BR currency format. Each rendering comes with a reader that recovers what was rendered.
 */
module MetodosUteis {
  import opened Erros
  import opened Decimal
  import opened Texto

  // ---------------------------------------------------------------------------------------------
  // BigDecimal.toString

  /** The power of ten of the leading digit (BigDecimal's "adjusted exponent"). */
  function ExpoenteAjustado(d: Dec): int
  {
    |Digits(Abs(d.unscaled))| - 1 - d.scale
  }

  /** Characters a decimal's string form may hold. */
  predicate Numerico(c: char)
  {
    IsDigit(c) || c == '-' || c == '.' || c == 'E' || c == '+'
  }

  predicate TodosNumericos(s: string)
  {
    forall i :: 0 <= i < |s| ==> Numerico(s[i])
  }

  /** Plain notation for a positive scale: the point sits scale digits from the right. */
  function Fracao(ds: string, scale: nat): (r: string)
    requires AllDigits(ds) && scale > 0
    ensures TodosNumericos(r)
  {
    if |ds| > scale then ds[..|ds| - scale] + "." + ds[|ds| - scale..]
    else "0" + "." + (Repeat('0', scale - |ds|) + ds)
  }

  /** Scientific notation, used when the adjusted exponent is below -6. */
  function Cientifica(ds: string, expoente: int): (r: string)
    requires AllDigits(ds) && |ds| >= 1
    ensures TodosNumericos(r)
  {
    ds[..1] + (if |ds| > 1 then "." + ds[1..] else "") + "E" + (if expoente < 0 then "-" else "+")
      + Digits(Abs(expoente))
  }

  /**
   * BigDecimal.toString for a non-negative scale: the unscaled digits when the scale is 0, plain
   * notation while the adjusted exponent is at least -6, scientific notation below that.
   */
  function DecToString(d: Dec): (r: string)
    ensures |r| >= 1 && TodosNumericos(r)
  {
    var ds := Digits(Abs(d.unscaled));
    var corpo := if d.scale == 0 then ds
                 else if ExpoenteAjustado(d) >= -6 then Fracao(ds, d.scale)
                 else Cientifica(ds, ExpoenteAjustado(d));
    (if d.unscaled < 0 then "-" else "") + corpo
  }

  /** The first position of c in s, or |s| when c does not occur. */
  function IndiceDe(s: string, c: char): (i: nat)
    ensures i <= |s|
    ensures forall j :: 0 <= j < i ==> s[j] != c
    ensures i < |s| ==> s[i] == c
  {
    if s == [] then 0 else if s[0] == c then 0 else 1 + IndiceDe(s[1..], c)
  }

  /** Reads "digits" or "digits.digits"; the scale is the number of digits after the point. */
  function LerSemSinal(r: string): Option<Dec>
  {
    var i := IndiceDe(r, '.');
    if i == |r| then
      if r != [] && AllDigits(r) then Some(Dec(ParseDigits(r), 0)) else None
    else
      var inteira := r[..i];
      var fracao := r[i + 1..];
      if inteira != [] && fracao != [] && AllDigits(inteira) && AllDigits(fracao) then
        Some(Dec(ParseDigits(inteira + fracao), |fracao|))
      else
        None
  }

  /** Reads a decimal in plain notation, with an optional leading '-'. */
  function LerDecimal(s: string): Option<Dec>
  {
    if s != [] && s[0] == '-' then
      match LerSemSinal(s[1..])
      case Some(d) => Some(Negate(d))
      case None => None
    else
      LerSemSinal(s)
  }

  lemma IndiceUnico(s: string, c: char, k: nat)
    requires k < |s| && s[k] == c
    requires forall j :: 0 <= j < k ==> s[j] != c
    ensures IndiceDe(s, c) == k
  {
  }

  /** A run of digits holds no point. */
  lemma IndiceAusente(s: string)
    requires AllDigits(s)
    ensures IndiceDe(s, '.') == |s|
  {
  }

  /** The point after a run of digits is the first one. */
  lemma PontoDepoisDeDigitos(inteira: string, fracao: string)
    requires AllDigits(inteira)
    ensures IndiceDe(inteira + "." + fracao, '.') == |inteira|
  {
    var r := inteira + "." + fracao;
    forall j | 0 <= j < |inteira|
      ensures r[j] != '.'
    {
      assert r[j] == inteira[j];
    }
    IndiceUnico(r, '.', |inteira|);
  }

  /** "digits.digits" reads as all its digits, scaled by the number after the point. */
  lemma LerComPonto(inteira: string, fracao: string)
    requires AllDigits(inteira) && AllDigits(fracao) && inteira != [] && fracao != []
    ensures LerSemSinal(inteira + "." + fracao) == Some(Dec(ParseDigits(inteira + fracao), |fracao|))
  {
    var r := inteira + "." + fracao;
    PontoDepoisDeDigitos(inteira, fracao);
    assert r[..|inteira|] == inteira;
    assert r[|inteira| + 1..] == fracao;
  }

  /** More digits than the scale: the point goes between them. */
  lemma LerFracaoLonga(a: string, b: string)
    requires AllDigits(a) && AllDigits(b) && a != [] && b != []
    ensures LerSemSinal(a + "." + b) == Some(Dec(ParseDigits(a + b), |b|))
  {
    LerComPonto(a, b);
  }

  /** No more digits than the scale: "0." comes first. */
  lemma LerFracaoCurta(f: string)
    requires AllDigits(f) && f != []
    ensures LerSemSinal("0" + "." + f) == Some(Dec(ParseDigits(f), |f|))
  {
    assert ParseDigits("0") == 0;
    LeadingZeros("0", f);
    LerComPonto("0", f);
  }

  lemma LerCorpoLongo(ds: string, scale: nat)
    requires AllDigits(ds) && 0 < scale < |ds|
    ensures LerSemSinal(Fracao(ds, scale)) == Some(Dec(ParseDigits(ds), scale))
  {
    var k := |ds| - scale;
    assert ds[..k] + ds[k..] == ds;
    LerFracaoLonga(ds[..k], ds[k..]);
  }

  lemma ZerosNaFrente(k: nat, ds: string)
    requires AllDigits(ds)
    ensures AllDigits(Repeat('0', k) + ds) && ParseDigits(Repeat('0', k) + ds) == ParseDigits(ds)
  {
    ParseZeros(k);
    LeadingZeros(Repeat('0', k), ds);
  }

  lemma LerCorpoCurto(ds: string, scale: nat)
    requires AllDigits(ds) && ds != [] && |ds| <= scale
    ensures LerSemSinal(Fracao(ds, scale)) == Some(Dec(ParseDigits(ds), scale))
  {
    ZerosNaFrente(scale - |ds|, ds);
    LerFracaoCurta(Repeat('0', scale - |ds|) + ds);
  }

  /** In plain notation the string form reads back as the very same decimal, scale included. */
  lemma LerDecimalDecToString(d: Dec)
    requires d.scale == 0 || ExpoenteAjustado(d) >= -6
    ensures LerDecimal(DecToString(d)) == Some(d)
  {
    var n := Abs(d.unscaled);
    var ds := Digits(n);
    var corpo := if d.scale == 0 then ds else Fracao(ds, d.scale);
    assert DecToString(d) == (if d.unscaled < 0 then "-" else "") + corpo;
    ParseDigitsOfDigits(n);
    if d.scale == 0 {
      IndiceAusente(ds);
    } else if |ds| > d.scale {
      LerCorpoLongo(ds, d.scale);
    } else {
      LerCorpoCurto(ds, d.scale);
    }
    LerComSinal(d, corpo);
  }

  /** A leading '-' negates what the unsigned reader finds. */
  lemma LerComSinal(d: Dec, corpo: string)
    requires corpo != [] && IsDigit(corpo[0])
    requires LerSemSinal(corpo) == Some(Dec(Abs(d.unscaled), d.scale))
    ensures LerDecimal((if d.unscaled < 0 then "-" else "") + corpo) == Some(d)
  {
    if d.unscaled < 0 {
      assert ("-" + corpo)[1..] == corpo;
    } else {
      assert "" + corpo == corpo;
    }
  }

  // ---------------------------------------------------------------------------------------------
  // AddPorcentagem

  /** String concatenation of a possibly-null BigDecimal with "%": a null renders as "null". */
  function AddPorcentagem(taxaDesconto: Option<Dec>): (r: string)
    ensures |r| >= 2 && r[|r| - 1] == '%'
    ensures forall i :: 0 <= i < |r| - 1 ==> r[i] != '%'
  {
    match taxaDesconto
    case None => "null%"
    case Some(d) => DecToString(d) + "%"
  }

  /** Dropping the final '%' gives back the decimal that was rendered. */
  lemma AddPorcentagemLer(d: Dec)
    requires d.scale == 0 || ExpoenteAjustado(d) >= -6
    ensures var r := AddPorcentagem(Some(d)); LerDecimal(r[..|r| - 1]) == Some(d)
  {
    var r := AddPorcentagem(Some(d));
    assert r[..|r| - 1] == DecToString(d);
    LerDecimalDecToString(d);
  }

  /** Integral percentages render without a point; a missing one renders as "null%". */
  lemma AddPorcentagemInteiros()
    ensures AddPorcentagem(Some(Dec(10, 0))) == "10%"
    ensures AddPorcentagem(Some(Dec(0, 0))) == "0%"
    ensures AddPorcentagem(None) == "null%"
  {
    assert Digits(10) == "10";
  }

  /** A percentage with a scale keeps all its fractional digits, trailing zeros included. */
  lemma AddPorcentagemEscala()
    ensures AddPorcentagem(Some(Dec(1000, 2))) == "10.00%"
  {
    assert Digits(1000) == "1000";
    assert ExpoenteAjustado(Dec(1000, 2)) == 1;
    assert Fracao("1000", 2) == "10.00";
  }

  /** A fraction below one gets a leading "0.". */
  lemma AddPorcentagemMeio()
    ensures AddPorcentagem(Some(Dec(5, 1))) == "0.5%"
  {
    assert ExpoenteAjustado(Dec(5, 1)) == -1;
    assert Fracao("5", 1) == "0.5";
  }

  // ---------------------------------------------------------------------------------------------
  // formatarData

  /** A calendar date of the proleptic ISO calendar. */
  datatype Data = Data(ano: int, mes: int, dia: int)

  predicate Bissexto(ano: int)
  {
    ano % 4 == 0 && (ano % 100 != 0 || ano % 400 == 0)
  }

  function DiasNoMes(ano: int, mes: int): (n: int)
    requires 1 <= mes <= 12
    ensures 28 <= n <= 31
  {
    if mes == 2 then (if Bissexto(ano) then 29 else 28)
    else if mes == 4 || mes == 6 || mes == 9 || mes == 11 then 30
    else 31
  }

  /** The dates a LocalDate can hold. */
  predicate DataValida(d: Data)
  {
    -999999999 <= d.ano <= 999999999 && 1 <= d.mes <= 12 && 1 <= d.dia <= DiasNoMes(d.ano, d.mes)
  }

  type DataLocal = d: Data | DataValida(d) witness Data(2000, 1, 1)

  /** The year of era: year 0 is 1 BC, year -1 is 2 BC, and so on. */
  function AnoDaEra(ano: int): (e: nat)
    ensures e >= 1
    ensures ano >= 1 ==> e == ano
  {
    if ano >= 1 then ano else 1 - ano
  }

  /** Pattern "yyyy": at least four digits, and a '+' once the year of era needs more than four. */
  function FormatarAno(ano: int): string
  {
    var e := AnoDaEra(ano);
    (if e > 9999 then "+" else "") + Padded(e, 4)
  }

  /**
   * Pattern "dd/MM/yyyy": day and month always take two digits each, between
   * the two slashes, and the year follows.
   */
  function FormatarData(d: DataLocal): (r: string)
    ensures |r| >= 10 && r[2] == '/' && r[5] == '/'
    ensures AllDigits(r[..2]) && ParseDigits(r[..2]) == d.dia
    ensures AllDigits(r[3..5]) && ParseDigits(r[3..5]) == d.mes
    ensures r[6..] == FormatarAno(d.ano)
  {
    DoisDigitos(d.dia);
    DoisDigitos(d.mes);
    CamposData(Padded(d.dia, 2), Padded(d.mes, 2), FormatarAno(d.ano));
    Padded(d.dia, 2) + "/" + Padded(d.mes, 2) + "/" + FormatarAno(d.ano)
  }

  /** Reads "dd/MM/yyyy" back into its three fields. */
  function LerData(s: string): Option<Data>
  {
    if |s| == 10 && s[2] == '/' && s[5] == '/'
       && AllDigits(s[..2]) && AllDigits(s[3..5]) && AllDigits(s[6..])
    then Some(Data(ParseDigits(s[6..]), ParseDigits(s[3..5]), ParseDigits(s[..2])))
    else None
  }

  /** A day or month below 100 takes exactly two digits. */
  lemma DoisDigitos(n: nat)
    requires n < 100
    ensures |Padded(n, 2)| == 2 && ParseDigits(Padded(n, 2)) == n
  {
    assert Pow10(2) == 100;
    PaddedParses(n, 2);
  }

  /** The slices of "dd/mm/rest" for two-character dd and mm. */
  lemma CamposData(dd: string, mm: string, resto: string)
    requires |dd| == 2 && |mm| == 2
    ensures var s := dd + "/" + mm + "/" + resto;
      |s| == 6 + |resto| && s[2] == '/' && s[5] == '/' && s[..2] == dd && s[3..5] == mm && s[6..] == resto
  {
    var s := dd + "/" + mm + "/" + resto;
    assert s[..2] == dd;
    assert s[3..5] == mm;
    assert s[6..] == resto;
  }

  /** For years 1 to 9999 the date takes exactly ten characters and reads back unchanged. */
  lemma LerDataFormatarData(d: DataLocal)
    requires 1 <= d.ano <= 9999
    ensures |FormatarData(d)| == 10
    ensures LerData(FormatarData(d)) == Some(d)
  {
    var s := FormatarData(d);
    assert Pow10(4) == 10000;
    PaddedParses(d.ano, 4);
    var yyyy := Padded(d.ano, 4);
    assert FormatarAno(d.ano) == yyyy;
    assert s[6..] == yyyy && |yyyy| == 4 && AllDigits(yyyy) && ParseDigits(yyyy) == d.ano;
    assert |s| == 10;
  }

  /** Hence the format tells apart any two dates with years 1 to 9999. */
  lemma FormatarDataInjetiva(d1: DataLocal, d2: DataLocal)
    requires 1 <= d1.ano <= 9999 && 1 <= d2.ano <= 9999
    requires FormatarData(d1) == FormatarData(d2)
    ensures d1 == d2
  {
    LerDataFormatarData(d1);
    LerDataFormatarData(d2);
  }

  /** A year of era beyond 9999 is written with a leading '+', so the date grows past ten characters. */
  lemma FormatarDataAnoLongo(d: DataLocal)
    requires AnoDaEra(d.ano) > 9999
    ensures |FormatarData(d)| > 10 && FormatarData(d)[6] == '+'
  {
    assert FormatarAno(d.ano) == "+" + Padded(AnoDaEra(d.ano), 4);
  }

  // ---------------------------------------------------------------------------------------------
  // formatarPreco

  /** The amount in cents, rounded half-even as the currency format does. */
  function Centavos(preco: Dec): int
  {
    RoundHalfEvenDiv(preco.unscaled * 100, Pow10(preco.scale))
  }

  /** Integer digits with a '.' before each group of three, counted from the right. */
  function Agrupar(ds: string): (r: string)
    ensures |r| >= |ds|
    decreases |ds|
  {
    if |ds| <= 3 then ds else Agrupar(ds[..|ds| - 3]) + "." + ds[|ds| - 3..]
  }

  /** An amount of n cents as grouped reais, ',' and two cent digits. */
  function Montante(n: nat): string
  {
    Agrupar(Digits(n / 100)) + "," + Padded(n % 100, 2)
  }

  /**
   * The pt-BR currency rendering: "R$", a no-break space (U+00A0) and the amount rounded
   * to the cent, with '-' first exactly when the price itself is negative. The sign is
   * taken before rounding, so a negative price that rounds to zero shows "-R$\U{A0}0,00".
   */
  function FormatarPreco(preco: Dec): (r: string)
    ensures preco.unscaled < 0 ==> |r| >= 8 && r[..4] == "-R$\U{A0}"
    ensures preco.unscaled >= 0 ==> |r| >= 7 && r[..3] == "R$\U{A0}"
  {
    var c := Centavos(preco);
    MontanteTamanho(Abs(c));
    PrecoPrefixo(preco.unscaled < 0, Montante(Abs(c)));
    (if preco.unscaled < 0 then "-" else "") + ("R$\U{A0}" + Montante(Abs(c)))
  }

  /** An amount takes at least one digit of reais, the ',' and two cent digits. */
  lemma MontanteTamanho(n: nat)
    ensures |Montante(n)| >= 4
  {
    DoisDigitos(n % 100);
  }

  /** The sign, then "R$" and the no-break space. */
  lemma PrecoPrefixo(negativo: bool, m: string)
    requires |m| >= 4
    ensures var r := (if negativo then "-" else "") + ("R$\U{A0}" + m);
      (negativo ==> |r| >= 8 && r[..4] == "-R$\U{A0}") && (!negativo ==> |r| >= 7 && r[..3] == "R$\U{A0}")
  {
    var r := (if negativo then "-" else "") + ("R$\U{A0}" + m);
    if negativo {
      assert r[..4] == "-R$\U{A0}";
    } else {
      assert r[..3] == "R$\U{A0}";
    }
  }

  /** s without its '.' characters. */
  function SemPontos(s: string): (r: string)
    ensures |r| <= |s|
  {
    if s == [] then [] else (if s[0] == '.' then [] else [s[0]]) + SemPontos(s[1..])
  }

  lemma {:induction false} SemPontosConcat(a: string, b: string)
    ensures SemPontos(a + b) == SemPontos(a) + SemPontos(b)
  {
    if a != [] {
      assert (a + b)[1..] == a[1..] + b;
      SemPontosConcat(a[1..], b);
    } else {
      assert a + b == b;
    }
  }

  lemma {:induction false} SemPontosDigitos(s: string)
    requires AllDigits(s)
    ensures SemPontos(s) == s
  {
    if s != [] {
      assert IsDigit(s[0]);
      SemPontosDigitos(s[1..]);
    }
  }

  /** Dropping the separators of "g.b" joins what is left of g and b. */
  lemma SemPontosJunta(g: string, a: string, b: string)
    requires SemPontos(g) == a && SemPontos(b) == b
    ensures SemPontos(g + "." + b) == a + b
  {
    assert SemPontos(".") == "" by {
      assert "."[1..] == [];
    }
    SemPontosConcat(g, ".");
    SemPontosConcat(g + ".", b);
  }

  lemma DigitosPartes(ds: string, k: nat)
    requires AllDigits(ds) && k <= |ds|
    ensures AllDigits(ds[..k]) && AllDigits(ds[k..]) && ds[..k] + ds[k..] == ds
  {
    assert forall i :: 0 <= i < |ds| - k ==> ds[k..][i] == ds[k + i];
  }

  /** Grouping only inserts separators: removing them restores the digits. */
  lemma {:induction false} SemPontosAgrupar(ds: string)
    requires AllDigits(ds)
    ensures SemPontos(Agrupar(ds)) == ds
    decreases |ds|
  {
    if |ds| <= 3 {
      SemPontosDigitos(ds);
    } else {
      var k := |ds| - 3;
      var a, b := ds[..k], ds[k..];
      DigitosPartes(ds, k);
      SemPontosAgrupar(a);
      SemPontosDigitos(b);
      assert Agrupar(ds) == Agrupar(a) + "." + b;
      SemPontosJunta(Agrupar(a), a, b);
    }
  }

  /** Reads "reais,cc" (separators already dropped) as an amount in cents. */
  function LerCentavos(b: string): Option<int>
  {
    if |b| >= 4 && b[|b| - 3] == ',' then LerPartes(b[..|b| - 3], b[|b| - 2..]) else None
  }

  /** Whole reais and two cent digits, as a number of cents. */
  function LerPartes(reais: string, cents: string): Option<int>
  {
    if AllDigits(reais) && AllDigits(cents) then Some(ParseDigits(reais) * 100 + ParseDigits(cents)) else None
  }

  /** Reads "R$", the no-break space and a grouped amount. */
  function LerValor(r: string): Option<int>
  {
    if |r| >= 3 && r[..3] == "R$\U{A0}" then LerCentavos(SemPontos(r[3..])) else None
  }

  /** Reads a pt-BR currency string back as an amount in cents; a leading '-' negates it. */
  function LerPreco(s: string): Option<int>
  {
    if s != [] && s[0] == '-' then
      match LerValor(s[1..])
      case Some(v) => Some(-v)
      case None => None
    else
      match LerValor(s)
      case Some(v) => Some(v)
      case None => None
  }

  lemma LerCentavosPartes(reais: string, cents: string)
    requires AllDigits(reais) && reais != [] && AllDigits(cents) && |cents| == 2
    ensures LerCentavos(reais + "," + cents) == Some(ParseDigits(reais) * 100 + ParseDigits(cents))
  {
    SeparaVirgula(reais, cents);
  }

  lemma SeparaVirgula(a: string, c: string)
    requires |c| == 2
    ensures var b := a + "," + c; b[|b| - 3] == ',' && b[..|b| - 3] == a && b[|b| - 2..] == c
  {
    var b := a + "," + c;
    assert b[..|b| - 3] == a;
    assert b[|b| - 2..] == c;
  }

  /** Dropping the separators of "grouped reais,cents" leaves "reais,cents". */
  lemma SemPontosNumero(reais: string, cents: string)
    requires AllDigits(reais) && AllDigits(cents)
    ensures SemPontos(Agrupar(reais) + "," + cents) == reais + "," + cents
  {
    SemPontosAgrupar(reais);
    SemPontosConcat(Agrupar(reais) + ",", cents);
    SemPontosConcat(Agrupar(reais), ",");
    SemPontosDigitos(cents);
    assert SemPontos(",") == ",";
  }

  lemma LerNumeroPartes(rs: string, cs: string)
    requires AllDigits(rs) && rs != [] && AllDigits(cs) && |cs| == 2
    ensures LerCentavos(SemPontos(Agrupar(rs) + "," + cs)) == Some(ParseDigits(rs) * 100 + ParseDigits(cs))
  {
    SemPontosNumero(rs, cs);
    LerCentavosPartes(rs, cs);
  }

  /** The number part, once its separators are dropped, reads as reais * 100 + cents. */
  lemma LerNumero(reais: nat, cents: nat)
    requires cents < 100
    ensures LerCentavos(SemPontos(Agrupar(Digits(reais)) + "," + Padded(cents, 2))) == Some(reais * 100 + cents)
  {
    DoisDigitos(cents);
    ParseDigitsOfDigits(reais);
    LerNumeroPartes(Digits(reais), Padded(cents, 2));
  }

  lemma LerValorDe(m: string, n: nat)
    requires LerCentavos(SemPontos(m)) == Some(n)
    ensures LerValor("R$\U{A0}" + m) == Some(n)
  {
    var r := "R$\U{A0}" + m;
    assert r[..3] == "R$\U{A0}" && r[3..] == m;
  }

  /** A leading '-' negates the amount that follows; it is there whenever c is below zero. */
  lemma LerPrecoSinal(negativo: bool, c: int, r: string)
    requires (negativo ==> c <= 0) && (!negativo ==> c >= 0)
    requires r != [] && r[0] == 'R' && LerValor(r) == Some(Abs(c))
    ensures LerPreco((if negativo then "-" else "") + r) == Some(c)
  {
    if negativo {
      assert ("-" + r)[1..] == r;
    } else {
      assert "" + r == r;
    }
  }

  /** The currency string names exactly the half-even rounded amount in cents. */
  lemma LerPrecoFormatarPreco(preco: Dec)
    ensures LerPreco(FormatarPreco(preco)) == Some(Centavos(preco))
  {
    var c := Centavos(preco);
    var n := Abs(c);
    var m := Montante(n);
    assert m == Agrupar(Digits(n / 100)) + "," + Padded(n % 100, 2);
    LerNumero(n / 100, n % 100);
    assert n / 100 * 100 + n % 100 == n;
    CentavosSinal(preco);
    LerPrecoDe(preco.unscaled < 0, c, m);
    assert FormatarPreco(preco) == (if preco.unscaled < 0 then "-" else "") + ("R$\U{A0}" + m);
  }

  /** A sign, "R$\U{A0}" and a number part that reads as |c| cents read back as c. */
  lemma LerPrecoDe(negativo: bool, c: int, m: string)
    requires (negativo ==> c <= 0) && (!negativo ==> c >= 0)
    requires LerCentavos(SemPontos(m)) == Some(Abs(c))
    ensures LerPreco((if negativo then "-" else "") + ("R$\U{A0}" + m)) == Some(c)
  {
    LerValorDe(m, Abs(c));
    LerPrecoSinal(negativo, c, "R$\U{A0}" + m);
  }

  /** Rounding to the cent never flips the sign: a negative price rounds to zero at most. */
  lemma CentavosSinal(preco: Dec)
    ensures preco.unscaled < 0 ==> Centavos(preco) <= 0
    ensures preco.unscaled >= 0 ==> Centavos(preco) >= 0
  {
    assert preco.unscaled < 0 <==> preco.unscaled * 100 < 0;
  }

  /** HALF_EVEN leaves an amount already at the target scale unchanged. */
  lemma RoundHalfEvenExact(q: int, m: int)
    requires m > 0
    ensures RoundHalfEvenDiv(q * m, m) == q
  {
    var r := RoundHalfEvenDiv(q * m, m);
    var k := r - q;
    assert 2 * m * r - 2 * (q * m) == k * (2 * m);
    assert -m <= k * (2 * m) <= m;
    if k >= 1 {
      MulAtLeast(k, 2 * m);
    } else if k <= -1 {
      MulAtLeast(-k, 2 * m);
    }
  }

  /** A price with at most two decimals is shown without rounding. */
  lemma CentavosExatos(preco: Dec)
    requires preco.scale <= 2
    ensures Centavos(preco) == preco.unscaled * Pow10(2 - preco.scale)
  {
    Pow10Add(2 - preco.scale, preco.scale);
    assert Pow10(2) == 100;
    var q := preco.unscaled * Pow10(2 - preco.scale);
    assert preco.unscaled * 100 == q * Pow10(preco.scale);
    RoundHalfEvenExact(q, Pow10(preco.scale));
  }

  /** A non-negative price of c cents is shown as "R$\U{A0}", the grouped reais, ',' and the cents. */
  lemma FormatarPrecoPositivo(preco: Dec, c: nat)
    requires preco.unscaled >= 0 && Centavos(preco) == c
    ensures FormatarPreco(preco) == "R$\U{A0}" + Montante(c)
  {
  }

  /** A whole amount of reais below a thousand needs no '.', and its cents are "00". */
  lemma MontanteReais(reais: nat, ds: string)
    requires reais < 1000 && ds == Digits(reais)
    ensures Montante(100 * reais) == ds + ",00"
  {
    assert (100 * reais) / 100 == reais && (100 * reais) % 100 == 0;
    assert Pow10(3) == 1000;
    DigitsLength(reais, 3);
    assert Padded(0, 2) == "00";
  }

  /** A whole amount below a thousand reais is shown as "R$\U{A0}", its digits and ",00". */
  lemma FormatarPrecoReais(preco: Dec, reais: nat, ds: string)
    requires preco.unscaled >= 0 && Centavos(preco) == 100 * reais && reais < 1000 && ds == Digits(reais)
    ensures FormatarPreco(preco) == "R$\U{A0}" + ds + ",00"
  {
    FormatarPrecoPositivo(preco, 100 * reais);
    MontanteReais(reais, ds);
  }

  /** A discounted final price of 90 reais. */
  lemma FormatarPrecoNoventa()
    ensures FormatarPreco(Dec(9000, 2)) == "R$\U{A0}90,00"
  {
    CentavosExatos(Dec(9000, 2));
    assert Digits(90) == "90";
    FormatarPrecoReais(Dec(9000, 2), 90, "90");
  }

  /** A taxed final price of 110 reais. */
  lemma FormatarPrecoCentoEDez()
    ensures FormatarPreco(Dec(11000, 2)) == "R$\U{A0}110,00"
  {
    CentavosExatos(Dec(11000, 2));
    assert Digits(110) == "110";
    FormatarPrecoReais(Dec(11000, 2), 110, "110");
  }

  /** An unadjusted final price of 100 reais. */
  lemma FormatarPrecoCem()
    ensures FormatarPreco(Dec(10000, 2)) == "R$\U{A0}100,00"
  {
    CentavosExatos(Dec(10000, 2));
    assert Digits(100) == "100";
    FormatarPrecoReais(Dec(10000, 2), 100, "100");
  }

  /** The sign is the price's own, taken before rounding: -0.001 is shown as "-R$\U{A0}0,00". */
  lemma FormatarPrecoZeroNegativo()
    ensures Centavos(Dec(-1, 3)) == 0
    ensures FormatarPreco(Dec(-1, 3)) == "-R$\U{A0}0,00"
  {
    assert Pow10(3) == 1000;
    assert Centavos(Dec(-1, 3)) == RoundHalfEvenDiv(-100, 1000);
    assert Montante(0) == "0,00";
  }

  lemma AgruparMilhar()
    ensures Agrupar(Digits(1234)) == "1.234"
  {
    assert Digits(1234) == "1234";
    var s := "1234";
    assert s[..1] == "1";
    assert s[1..] == "234";
  }

  lemma MontanteMilhar()
    ensures Montante(123456) == "1.234,56"
  {
    AgruparMilhar();
    assert Padded(56, 2) == "56";
    assert 123456 / 100 == 1234 && 123456 % 100 == 56;
    assert Montante(123456) == Agrupar(Digits(1234)) + "," + Padded(56, 2);
  }

  /** Thousands are separated by '.'. */
  lemma FormatarPrecoMilhar()
    ensures FormatarPreco(Dec(123456, 2)) == "R$\U{A0}1.234,56"
  {
    CentavosExatos(Dec(123456, 2));
    MontanteMilhar();
    FormatarPrecoPositivo(Dec(123456, 2), 123456);
  }
}
