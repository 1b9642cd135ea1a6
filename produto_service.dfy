/**
 * ProdutoService: the final-price rule, the paged listing and the register, get, update and
 * delete operations over the rows of table produto. A thrown exception becomes a Falha; the
 * boolean falha stands for the repository's save or delete throwing.
 */
module ServicoProduto {
  import opened Erros
  import opened Decimal
  import opened Texto
  import opened Mensagens
  import opened MetodosUteis
  import opened Entidades
  import opened CategoriaRepositorio
  import opened ProdutoMapper
  import opened ProdutoRepositorio

  // ---------------------------------------------------------------------------------------------
  // calcularPrecoFinal

  /**
   * The adjustment: the negated discount when the discount is non-zero, else the tax when it is
   * non-zero, else zero. compareTo on a null discount, or on a null tax once the discount is
   * zero, throws.
   */
  function AjustePreco(c: CategoriaDados): (r: Resultado<Dec>)
    ensures r.Falha? <==> c.desconto.None? || (IsZero(c.desconto.value) && c.taxa.None?)
    ensures r.Falha? ==> r.erro == PonteiroNulo
    ensures r.Ok? && !IsZero(c.desconto.value) ==> r.valor == Negate(c.desconto.value)
    ensures r.Ok? && IsZero(c.desconto.value) && !IsZero(c.taxa.value) ==> r.valor == c.taxa.value
    ensures r.Ok? && IsZero(c.desconto.value) && IsZero(c.taxa.value) ==> r.valor == Zero
  {
    match c.desconto
    case None => Falha(PonteiroNulo)
    case Some(d) =>
      if !IsZero(d) then Ok(Negate(d))
      else
        match c.taxa
        case None => Falha(PonteiroNulo)
        case Some(t) => if !IsZero(t) then Ok(t) else Ok(Zero)
  }

  /** A category with both a discount and a tax gets the discount. */
  lemma DescontoPrevalece(c: CategoriaDados)
    requires c.desconto.Some? && c.taxa.Some? && !IsZero(c.desconto.value) && !IsZero(c.taxa.value)
    ensures AjustePreco(c) == Ok(Negate(c.desconto.value))
  {
  }

  /** The percentage the factor really applies: the adjustment rounded HALF_UP to a whole number. */
  function PercentualAplicado(ajuste: Dec): int
  {
    RoundHalfUpDiv(ajuste.unscaled, Pow10(ajuste.scale))
  }

  /**
   * ONE.add(ajuste.divide(valueOf(100), 2, HALF_UP)): the factor is 1 + p/100 for the
   * whole percentage p, so fractions of a percent are rounded away.
   */
  function Fator(ajuste: Dec): (f: Dec)
    ensures f == Dec(100 + PercentualAplicado(ajuste), 2)
  {
    var p := Pow10(ajuste.scale);
    assert Pow10(2) == 100;
    assert 100 * p == p * 100;
    RoundHalfUpCancel(ajuste.unscaled, p, 100);
    Add(One, Divide(ajuste, Dec(100, 0), 2))
  }

  /** The values in the halfway cases go away from zero. */
  lemma PercentualExemplos()
    ensures PercentualAplicado(Dec(105, 1)) == 11 && PercentualAplicado(Dec(-105, 1)) == -11
    ensures PercentualAplicado(Dec(104, 1)) == 10 && PercentualAplicado(Dec(1499, 2)) == 15
  {
    assert Pow10(1) == 10 && Pow10(2) == 100;
    RoundHalfUpUnique(105, 10, 11);
    RoundHalfUpUnique(-105, 10, -11);
    RoundHalfUpUnique(104, 10, 10);
    RoundHalfUpUnique(1499, 100, 15);
  }

  lemma CentavosDoProduto(u: int, s: nat, f: int)
    ensures RoundHalfUpDiv(u * f * Pow10(2), Pow10(s + 2)) == RoundHalfUpDiv(u * f, Pow10(s))
  {
    Pow10Add(s, 2);
    assert Pow10(2) == 100;
    RoundHalfUpCancel(u * f, Pow10(s), 100);
  }

  /**
   * precoBase.multiply(fator).setScale(2, HALF_UP): the final price in cents is
   * base * (100 + p) / 100 reais, rounded HALF_UP to the cent.
   */
  function PrecoFinal(precoBase: Dec, ajuste: Dec): (r: Dec)
    ensures r.scale == 2
    ensures r.unscaled == RoundHalfUpDiv(precoBase.unscaled * (100 + PercentualAplicado(ajuste)), Pow10(precoBase.scale))
  {
    CentavosDoProduto(precoBase.unscaled, precoBase.scale, 100 + PercentualAplicado(ajuste));
    SetScale(Multiply(precoBase, Fator(ajuste)), 2)
  }

  /** The base price rounded to the cent, for comparison. */
  lemma BaseCentavos(precoBase: Dec)
    ensures SetScale(precoBase, 2).unscaled == RoundHalfUpDiv(precoBase.unscaled * 100, Pow10(precoBase.scale))
  {
    assert Pow10(2) == 100;
  }

  /** A discount between 0 and 100 applies a whole percentage between -100 and 0. */
  lemma PercentualDesconto(d: Dec)
    requires 0 <= d.unscaled <= 100 * Pow10(d.scale)
    ensures -100 <= PercentualAplicado(Negate(d)) <= 0
  {
    var m: int := Pow10(d.scale);
    RoundHalfUpMono(-100 * m, -d.unscaled, m);
    RoundHalfUpExact(-100, m);
    RoundHalfUpMono(-d.unscaled, 0 * m, m);
    RoundHalfUpExact(0, m);
  }

  lemma CentavosEntre(u: int, p: int, m: int)
    requires u > 0 && -100 <= p <= 0 && m > 0
    ensures 0 <= RoundHalfUpDiv(u * (100 + p), m) <= RoundHalfUpDiv(u * 100, m)
  {
    MulMono(100 + p, 100, u);
    MulMono(0, 100 + p, u);
    RoundHalfUpMono(u * (100 + p), u * 100, m);
    RoundHalfUpMono(0 * m, u * (100 + p), m);
    RoundHalfUpExact(0, m);
  }

  /** For a positive base, a percentage in [-100, 0] keeps the price between zero and the base. */
  lemma PrecoEntreZeroEBase(precoBase: Dec, ajuste: Dec)
    requires precoBase.unscaled > 0 && -100 <= PercentualAplicado(ajuste) <= 0
    ensures 0 <= PrecoFinal(precoBase, ajuste).unscaled <= SetScale(precoBase, 2).unscaled
  {
    CentavosEntre(precoBase.unscaled, PercentualAplicado(ajuste), Pow10(precoBase.scale));
    BaseCentavos(precoBase);
  }

  /**
   * For a positive base, a discount (0 <= d <= 100) never raises the price above the base
   * rounded to the cent, and never makes it negative.
   */
  lemma DescontoNaoEncarece(precoBase: Dec, d: Dec)
    requires precoBase.unscaled > 0 && 0 <= d.unscaled <= 100 * Pow10(d.scale)
    ensures 0 <= PrecoFinal(precoBase, Negate(d)).unscaled <= SetScale(precoBase, 2).unscaled
  {
    PercentualDesconto(d);
    PrecoEntreZeroEBase(precoBase, Negate(d));
  }

  lemma CentavosAcima(u: int, p: int, m: int)
    requires u > 0 && p >= 0 && m > 0
    ensures RoundHalfUpDiv(u * 100, m) <= RoundHalfUpDiv(u * (100 + p), m)
  {
    MulMono(100, 100 + p, u);
    RoundHalfUpMono(u * 100, u * (100 + p), m);
  }

  /** For a positive base, a tax (t >= 0) never lowers the price below the base rounded to the cent. */
  lemma TaxaNaoBarateia(precoBase: Dec, t: Dec)
    requires precoBase.unscaled > 0 && t.unscaled >= 0
    ensures PrecoFinal(precoBase, t).unscaled >= SetScale(precoBase, 2).unscaled
  {
    RoundHalfUpMono(0 * Pow10(t.scale), t.unscaled, Pow10(t.scale));
    RoundHalfUpExact(0, Pow10(t.scale));
    CentavosAcima(precoBase.unscaled, PercentualAplicado(t), Pow10(precoBase.scale));
    BaseCentavos(precoBase);
  }

  /** With no adjustment the final price is the base rounded to the cent. */
  lemma SemAjuste(precoBase: Dec)
    ensures PrecoFinal(precoBase, Zero) == SetScale(precoBase, 2)
  {
    assert Pow10(0) == 1;
    RoundHalfUpExact(0, 1);
    assert PercentualAplicado(Zero) == 0;
    BaseCentavos(precoBase);
  }

  /** The price of a loaded product, or the NullPointerException of a null percentage. */
  function PrecoFinalDe(p: ProdutoDados): (r: Resultado<Dec>)
    ensures r.Falha? <==> AjustePreco(p.categoria).Falha?
    ensures r.Ok? ==> r.valor == PrecoFinal(p.precoBase, AjustePreco(p.categoria).valor)
  {
    match AjustePreco(p.categoria)
    case Falha(e) => Falha(e)
    case Ok(a) => Ok(PrecoFinal(p.precoBase, a))
  }

  lemma PrecoCem(ajuste: Dec, p: int, centavos: int)
    requires p == PercentualAplicado(ajuste) && centavos == 100 * (100 + p)
    ensures PrecoFinal(Dec(100, 0), ajuste) == Dec(centavos, 2)
  {
    assert Pow10(0) == 1;
    RoundHalfUpExact(centavos, 1);
  }

  /** Base 100 with discount 10 gives 90.00, with tax 10 gives 110.00, with neither 100.00. */
  lemma PrecoFinalExemplos()
    ensures PrecoFinal(Dec(100, 0), Negate(Dec(10, 0))) == Dec(9000, 2)
    ensures PrecoFinal(Dec(100, 0), Dec(10, 0)) == Dec(11000, 2)
    ensures PrecoFinal(Dec(100, 0), Zero) == Dec(10000, 2)
  {
    assert Pow10(0) == 1;
    RoundHalfUpExact(-10, 1);
    RoundHalfUpExact(10, 1);
    RoundHalfUpExact(0, 1);
    PrecoCem(Negate(Dec(10, 0)), -10, 9000);
    PrecoCem(Dec(10, 0), 10, 11000);
    PrecoCem(Zero, 0, 10000);
  }

  // ---------------------------------------------------------------------------------------------
  // listarProdutos

  datatype Direcao = ASC | DESC

  /** direcao.equalsIgnoreCase("desc") ? DESC : ASC */
  function DirecaoOrdenacao(direcao: string): (d: Direcao)
    ensures d == DESC <==> EqualsIgnoreCase(direcao, "desc")
  {
    if EqualsIgnoreCase(direcao, "desc") then DESC else ASC
  }

  lemma DirecaoExemplos()
    ensures DirecaoOrdenacao("desc") == DESC && DirecaoOrdenacao("DESC") == DESC && DirecaoOrdenacao("Desc") == DESC
    ensures DirecaoOrdenacao("asc") == ASC && DirecaoOrdenacao("") == ASC && DirecaoOrdenacao("descendente") == ASC
  {
    assert LowerString("desc") == "desc";
    assert LowerString("DESC") == "desc";
    assert LowerString("Desc") == "desc";
    assert LowerString("asc")[0] == 'a';
  }

  /** PageRequest.of(numeroPagina, tamanhoPagina, Sort.by(direcao, sortBy)). */
  datatype PageRequest = PageRequest(numeroPagina: int, tamanhoPagina: int, direcao: Direcao, propriedade: string)

  /** The page the repository answers with. */
  datatype Pagina = Pagina(conteudo: seq<ProdutoDados>, totalPaginas: int, totalElementos: int)

  /** The repository query: name, description and category filters, and the page asked for. */
  type Consulta = (Option<string>, Option<string>, Option<string>, PageRequest) -> Pagina

  // The messages of the IllegalArgumentExceptions Spring Data throws for bad paging arguments.
  const PropriedadeVazia := "Property must not be null or empty"
  const PaginaNegativa := "Page index must not be less than zero"
  const TamanhoInvalido := "Page size must not be less than one"

  /** Character.isWhitespace, on the ASCII control and space characters. */
  predicate EspacoEmBranco(c: char)
  {
    c == ' ' || c == '\t' || c == '\n' || c == '\r' || c == '\U{B}' || c == '\U{C}' ||
    c == '\U{1C}' || c == '\U{1D}' || c == '\U{1E}' || c == '\U{1F}'
  }

  /** StringUtils.hasText: some character is not white space. */
  predicate TemTexto(s: string)
  {
    exists i :: 0 <= i < |s| && !EspacoEmBranco(s[i])
  }

  /** The arguments PageRequest.of and Sort.by accept: evaluated sort first, then index, then size. */
  function ValidarPaginacao(numeroPagina: int, tamanhoPagina: int, sortBy: string): (r: Resultado<()>)
    ensures r.Ok? <==> TemTexto(sortBy) && numeroPagina >= 0 && tamanhoPagina >= 1
    ensures !TemTexto(sortBy) ==> r == Falha(ArgumentoInvalido(PropriedadeVazia))
    ensures TemTexto(sortBy) && numeroPagina < 0 ==> r == Falha(ArgumentoInvalido(PaginaNegativa))
    ensures TemTexto(sortBy) && numeroPagina >= 0 && tamanhoPagina < 1 ==> r == Falha(ArgumentoInvalido(TamanhoInvalido))
  {
    if !TemTexto(sortBy) then Falha(ArgumentoInvalido(PropriedadeVazia))
    else if numeroPagina < 0 then Falha(ArgumentoInvalido(PaginaNegativa))
    else if tamanhoPagina < 1 then Falha(ArgumentoInvalido(TamanhoInvalido))
    else Ok(())
  }

  /** The controller's defaults (page 0, size 10, sorted by precoBase, "asc") are accepted, ascending. */
  lemma PaginacaoPadrao()
    ensures ValidarPaginacao(0, 10, "precoBase") == Ok(()) && DirecaoOrdenacao("asc") == ASC
  {
    assert !EspacoEmBranco("precoBase"[0]);
    assert LowerString("asc")[0] == 'a';
  }

  /**
   * listarProdutos: invalid paging arguments throw before the query; an empty page is not
   * found; otherwise the page's counts and one response per product, in the page's order.
   */
  function ListarProdutos(nome: Option<string>, descricao: Option<string>, nomeCategoria: Option<string>,
                          numeroPagina: int, tamanhoPagina: int, sortBy: string, direcao: string,
                          consulta: Consulta): (r: Resultado<ProdutoResponsePaginadoDTO>)
    ensures ValidarPaginacao(numeroPagina, tamanhoPagina, sortBy).Falha? ==>
      r == Falha(ValidarPaginacao(numeroPagina, tamanhoPagina, sortBy).erro)
    ensures ValidarPaginacao(numeroPagina, tamanhoPagina, sortBy).Ok? ==>
      var p := consulta(nome, descricao, nomeCategoria,
                        PageRequest(numeroPagina, tamanhoPagina, DirecaoOrdenacao(direcao), sortBy));
      (r.Falha? <==> p.conteudo == []) &&
      (r.Falha? ==> r.erro == NaoEncontrado(NenhumProdutoCadastrado)) &&
      (r.Ok? ==> r.valor.numeroDePaginas == p.totalPaginas && r.valor.totalRegistros == p.totalElementos) &&
      (r.Ok? ==> |r.valor.produtos| == |p.conteudo|) &&
      (r.Ok? ==> forall i :: 0 <= i < |p.conteudo| ==> r.valor.produtos[i] == ConverterEntidadeParaResponseDto(p.conteudo[i]))
  {
    match ValidarPaginacao(numeroPagina, tamanhoPagina, sortBy)
    case Falha(e) => Falha(e)
    case Ok(_) =>
      var pagina := consulta(nome, descricao, nomeCategoria,
                             PageRequest(numeroPagina, tamanhoPagina, DirecaoOrdenacao(direcao), sortBy));
      if pagina.conteudo == [] then
        Falha(NaoEncontrado(NenhumProdutoCadastrado))
      else
        var lista := seq(|pagina.conteudo|, i requires 0 <= i < |pagina.conteudo| =>
                                              ConverterEntidadeParaResponseDto(pagina.conteudo[i]));
        Ok(ProdutoResponsePaginadoDTO(pagina.totalPaginas, pagina.totalElementos, lista))
  }

  /** A one-product page gives one response and the page's totals of one. */
  lemma ListagemUmProduto(p: ProdutoDados, consulta: Consulta)
    requires consulta(Some("Produto"), Some("Descrição"), Some("Categoria"), PageRequest(0, 5, ASC, "precoBase"))
             == Pagina([p], 1, 1)
    ensures var r := ListarProdutos(Some("Produto"), Some("Descrição"), Some("Categoria"), 0, 5, "precoBase", "asc", consulta);
      r.Ok? && r.valor.totalRegistros == 1 && r.valor.numeroDePaginas == 1 && |r.valor.produtos| == 1
  {
    PaginacaoPadrao();
  }

  /** An empty page is reported as no product registered. */
  lemma ListagemVazia(consulta: Consulta)
    requires consulta(Some("Produto"), Some("Descrição"), Some("Categoria"), PageRequest(0, 5, ASC, "precoBase"))
             == Pagina([], 0, 0)
    ensures ListarProdutos(Some("Produto"), Some("Descrição"), Some("Categoria"), 0, 5, "precoBase", "asc", consulta)
            == Falha(NaoEncontrado(NenhumProdutoCadastrado))
  {
    PaginacaoPadrao();
  }

  /** When the query honours its WHERE clause, every listed response satisfies the filters. */
  lemma ListagemFiltrada(nome: Option<string>, descricao: Option<string>, nomeCategoria: Option<string>,
                         numeroPagina: int, tamanhoPagina: int, sortBy: string, direcao: string, consulta: Consulta)
    requires var p := consulta(nome, descricao, nomeCategoria,
                               PageRequest(numeroPagina, tamanhoPagina, DirecaoOrdenacao(direcao), sortBy));
      forall i :: 0 <= i < |p.conteudo| ==> Corresponde(p.conteudo[i], nome, descricao, nomeCategoria)
    ensures var r := ListarProdutos(nome, descricao, nomeCategoria, numeroPagina, tamanhoPagina, sortBy, direcao, consulta);
      r.Ok? ==> forall j :: 0 <= j < |r.valor.produtos| ==>
        CampoCorresponde(r.valor.produtos[j].nomeProduto, nome) &&
        CampoCorresponde(r.valor.produtos[j].descricaoProduto, descricao) &&
        CampoCorresponde(r.valor.produtos[j].nomeCategoria, nomeCategoria)
  {
    var p := consulta(nome, descricao, nomeCategoria,
                      PageRequest(numeroPagina, tamanhoPagina, DirecaoOrdenacao(direcao), sortBy));
    var r := ListarProdutos(nome, descricao, nomeCategoria, numeroPagina, tamanhoPagina, sortBy, direcao, consulta);
    if r.Ok? {
      forall j | 0 <= j < |r.valor.produtos|
        ensures CampoCorresponde(r.valor.produtos[j].nomeProduto, nome)
        ensures CampoCorresponde(r.valor.produtos[j].descricaoProduto, descricao)
        ensures CampoCorresponde(r.valor.produtos[j].nomeCategoria, nomeCategoria)
      {
        assert Corresponde(p.conteudo[j], nome, descricao, nomeCategoria);
      }
    }
  }

  /** Every row of the page is a stored product, under its own id, that the WHERE clause selects. */
  predicate PaginaDoEstoque(p: Pagina, produtos: map<int, ProdutoDados>,
                            nome: Option<string>, descricao: Option<string>, nomeCategoria: Option<string>)
  {
    forall i :: 0 <= i < |p.conteudo| ==>
      p.conteudo[i].idProduto.Some? &&
      p.conteudo[i].idProduto.value in Selecionados(produtos, nome, descricao, nomeCategoria) &&
      produtos[p.conteudo[i].idProduto.value] == p.conteudo[i]
  }

  /** When the query answers from the store, every listed response is a stored product meeting the filters. */
  lemma ListagemDoEstoque(produtos: map<int, ProdutoDados>, nome: Option<string>, descricao: Option<string>,
                          nomeCategoria: Option<string>, numeroPagina: int, tamanhoPagina: int, sortBy: string,
                          direcao: string, consulta: Consulta)
    requires PaginaDoEstoque(consulta(nome, descricao, nomeCategoria,
                                      PageRequest(numeroPagina, tamanhoPagina, DirecaoOrdenacao(direcao), sortBy)),
                             produtos, nome, descricao, nomeCategoria)
    ensures var r := ListarProdutos(nome, descricao, nomeCategoria, numeroPagina, tamanhoPagina, sortBy, direcao, consulta);
      r.Ok? ==> forall j :: 0 <= j < |r.valor.produtos| ==>
        r.valor.produtos[j].idProduto.Some? && r.valor.produtos[j].idProduto.value in produtos &&
        CampoCorresponde(r.valor.produtos[j].nomeProduto, nome) &&
        CampoCorresponde(r.valor.produtos[j].descricaoProduto, descricao) &&
        CampoCorresponde(r.valor.produtos[j].nomeCategoria, nomeCategoria)
  {
    var p := consulta(nome, descricao, nomeCategoria,
                      PageRequest(numeroPagina, tamanhoPagina, DirecaoOrdenacao(direcao), sortBy));
    var sel := Selecionados(produtos, nome, descricao, nomeCategoria);
    forall i | 0 <= i < |p.conteudo|
      ensures Corresponde(p.conteudo[i], nome, descricao, nomeCategoria)
    {
      var id := p.conteudo[i].idProduto.value;
      assert id in sel;
      assert Corresponde(produtos[id], nome, descricao, nomeCategoria);
    }
    ListagemFiltrada(nome, descricao, nomeCategoria, numeroPagina, tamanhoPagina, sortBy, direcao, consulta);
    var r := ListarProdutos(nome, descricao, nomeCategoria, numeroPagina, tamanhoPagina, sortBy, direcao, consulta);
    if r.Ok? {
      forall j | 0 <= j < |r.valor.produtos|
        ensures r.valor.produtos[j].idProduto.Some? && r.valor.produtos[j].idProduto.value in produtos
      {
        assert r.valor.produtos[j] == ConverterEntidadeParaResponseDto(p.conteudo[j]);
      }
    }
  }

  /** A store in which no product meets the filters lists nothing: no product registered. */
  lemma EstoqueSemSelecionados(produtos: map<int, ProdutoDados>, nome: Option<string>, descricao: Option<string>,
                               nomeCategoria: Option<string>, numeroPagina: int, tamanhoPagina: int, sortBy: string,
                               direcao: string, consulta: Consulta)
    requires PaginaDoEstoque(consulta(nome, descricao, nomeCategoria,
                                      PageRequest(numeroPagina, tamanhoPagina, DirecaoOrdenacao(direcao), sortBy)),
                             produtos, nome, descricao, nomeCategoria)
    ensures Selecionados(produtos, nome, descricao, nomeCategoria) == {} &&
            ValidarPaginacao(numeroPagina, tamanhoPagina, sortBy).Ok? ==>
      ListarProdutos(nome, descricao, nomeCategoria, numeroPagina, tamanhoPagina, sortBy, direcao, consulta)
      == Falha(NaoEncontrado(NenhumProdutoCadastrado))
  {
    var p := consulta(nome, descricao, nomeCategoria,
                      PageRequest(numeroPagina, tamanhoPagina, DirecaoOrdenacao(direcao), sortBy));
    if p.conteudo != [] {
      assert p.conteudo[0].idProduto.value in Selecionados(produtos, nome, descricao, nomeCategoria);
    }
  }

  // ---------------------------------------------------------------------------------------------
  // The product store

  class ProdutoService {
    var produtos: map<int, ProdutoDados>
    var proximoId: int

    /** Every row is stored under its own id, and ids are handed out from proximoId upwards. */
    ghost predicate Valid()
      reads this
    {
      forall id :: id in produtos ==> produtos[id].idProduto == Some(id) && id < proximoId
    }

    constructor ()
      ensures Valid() && produtos == map[] && proximoId == 1
    {
      produtos := map[];
      proximoId := 1;
    }

    /** buscarProdutoPorId: findById, or not found. */
    function BuscarProdutoPorId(id: int): (r: Resultado<ProdutoDados>)
      reads this
      ensures r.Ok? <==> id in produtos
      ensures r.Ok? ==> r.valor == produtos[id]
      ensures r.Falha? ==> r.erro == NaoEncontrado(ProdutoNaoEncontrado)
    {
      if id in produtos then Ok(produtos[id]) else Falha(NaoEncontrado(ProdutoNaoEncontrado))
    }

    /** cadastrarProduto: saves the converted row under the next id and returns that id. */
    method CadastrarProduto(dto: ProdutoCadastroRequestDTO, categorias: seq<CategoriaDados>, hoje: DataLocal,
                            falha: bool) returns (r: Resultado<int>)
      requires Valid()
      modifies this
      ensures Valid()
      ensures !TemNome(categorias, dto.nomeCategoria) ==> r == Falha(NaoEncontrado(CategoriaNaoEncontrada))
      ensures TemNome(categorias, dto.nomeCategoria) ==>
        r == if falha then Falha(IntegridadeDados(ErroCadastrarProduto)) else Ok(old(proximoId))
      ensures r.Ok? ==> r.valor !in old(produtos) && proximoId == old(proximoId) + 1
      ensures r.Ok? ==>
        produtos == old(produtos)[r.valor := ConverterRequestDtoParaEntidade(dto, categorias, hoje).valor.(idProduto := Some(r.valor))]
      ensures r.Falha? ==> produtos == old(produtos) && proximoId == old(proximoId)
    {
      var produto := ConverterRequestDtoParaEntidade(dto, categorias, hoje);
      if produto.Falha? {
        return Falha(produto.erro);
      }
      if falha {
        return Falha(IntegridadeDados(ErroCadastrarProduto));
      }
      var id := proximoId;
      produtos := produtos[id := produto.valor.(idProduto := Some(id))];
      proximoId := proximoId + 1;
      return Ok(id);
    }

    /** listarProdutoPorId */
    method ListarProdutoPorId(id: int) returns (r: Resultado<ProdutoResponseDTO>)
      ensures r.Ok? <==> id in produtos
      ensures r.Ok? ==> r.valor == ConverterEntidadeParaResponseDto(produtos[id])
      ensures r.Falha? ==> r.erro == NaoEncontrado(ProdutoNaoEncontrado)
    {
      var produto := BuscarProdutoPorId(id);
      if produto.Falha? {
        return Falha(produto.erro);
      }
      return Ok(ConverterEntidadeParaResponseDto(produto.valor));
    }

    /** atualizarProdutoPorId: the lookup, the merge, then the save of the merged row. */
    method AtualizarProdutoPorId(id: int, dto: ProdutoAtualizacaoRequestDTO, categorias: seq<CategoriaDados>,
                                 falha: bool) returns (r: Resultado<string>)
      requires Valid()
      modifies this
      ensures Valid() && proximoId == old(proximoId)
      ensures id !in old(produtos) ==> r == Falha(NaoEncontrado(ProdutoNaoEncontrado))
      ensures id in old(produtos) ==>
        var m := MesclarProduto(old(produtos)[id], dto, categorias);
        r == (if !m.concluida then Falha(NaoEncontrado(CategoriaNaoEncontrada))
              else if falha then Falha(IntegridadeDados(ErroAtualizacaoProduto))
              else Ok(AtualizacaoProduto))
      ensures r.Ok? ==> produtos == old(produtos)[id := MesclarProduto(old(produtos)[id], dto, categorias).entidade]
      ensures r.Falha? ==> produtos == old(produtos)
    {
      var busca := BuscarProdutoPorId(id);
      if busca.Falha? {
        return Falha(busca.erro);
      }
      var produto := new Produto(busca.valor);
      var atualizado := ProdutoMapper.AtualizarProduto(produto, dto, categorias);
      if atualizado.Falha? {
        return Falha(atualizado.erro);
      }
      if falha {
        return Falha(IntegridadeDados(ErroAtualizacaoProduto));
      }
      produtos := produtos[id := produto.Dados()];
      return Ok(AtualizacaoProduto);
    }

    /** excluirProdutoPorId: the lookup, then the delete. */
    method ExcluirProdutoPorId(id: int, falha: bool) returns (r: Resultado<string>)
      requires Valid()
      modifies this
      ensures Valid() && proximoId == old(proximoId)
      ensures id !in old(produtos) ==> r == Falha(NaoEncontrado(ProdutoNaoEncontrado))
      ensures id in old(produtos) ==>
        r == if falha then Falha(IntegridadeDados(ErroExclusaoProduto)) else Ok(ExclusaoProduto)
      ensures r.Ok? ==> produtos == old(produtos) - {id}
      ensures r.Falha? ==> produtos == old(produtos)
    {
      var busca := BuscarProdutoPorId(id);
      if busca.Falha? {
        return Falha(busca.erro);
      }
      if falha {
        return Falha(IntegridadeDados(ErroExclusaoProduto));
      }
      produtos := produtos - {id};
      return Ok(ExclusaoProduto);
    }

    /** calcularPrecoFinal: the lookup, then the price of the product's category adjustment. */
    method CalcularPrecoFinal(id: int) returns (r: Resultado<ProdutoPrecoFinalResponseDTO>)
      ensures id !in produtos ==> r == Falha(NaoEncontrado(ProdutoNaoEncontrado))
      ensures id in produtos && PrecoFinalDe(produtos[id]).Falha? ==> r == Falha(PonteiroNulo)
      ensures id in produtos && PrecoFinalDe(produtos[id]).Ok? ==>
        r == Ok(ConverterEntidadeParaPrecoFinalResponseDto(produtos[id], PrecoFinalDe(produtos[id]).valor))
    {
      var busca := BuscarProdutoPorId(id);
      if busca.Falha? {
        return Falha(busca.erro);
      }
      var produto := busca.valor;
      var ajuste := AjustePreco(produto.categoria);
      if ajuste.Falha? {
        return Falha(ajuste.erro);
      }
      var precoFinal := PrecoFinal(produto.precoBase, ajuste.valor);
      return Ok(ConverterEntidadeParaPrecoFinalResponseDto(produto, precoFinal));
    }
  }
}
