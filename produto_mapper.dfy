/**
 * ProdutoMapper: the registration builder, the two response builders and the partial update of
 * a loaded product. The category is resolved by name against the rows of table categoria.
 */
module ProdutoMapper {
  import opened Erros
  import opened Decimal
  import opened Mensagens
  import opened MetodosUteis
  import opened Entidades
  import opened CategoriaRepositorio

  /**
   * converterRequestDtoParaEntidade: name, description and base price copied, the category
   * resolved by name, the registration date set to today; no id yet.
   */
  function ConverterRequestDtoParaEntidade(dto: ProdutoCadastroRequestDTO, categorias: seq<CategoriaDados>,
                                           hoje: DataLocal): (r: Resultado<ProdutoDados>)
    ensures r.Falha? <==> !TemNome(categorias, dto.nomeCategoria)
    ensures r.Falha? ==> r.erro == NaoEncontrado(CategoriaNaoEncontrada)
    ensures r.Ok? ==> r.valor.idProduto.None? && r.valor.dataCadastro == hoje
    ensures r.Ok? ==> r.valor.nomeProduto == dto.nomeProduto && r.valor.descricaoProduto == dto.descricaoProduto
    ensures r.Ok? ==> r.valor.precoBase == dto.precoBase
    ensures r.Ok? ==> r.valor.categoria in categorias && r.valor.categoria.nomeCategoria == dto.nomeCategoria
  {
    match BuscarPorNome(categorias, dto.nomeCategoria)
    case Falha(e) => Falha(e)
    case Ok(c) => Ok(ProdutoDados(None, dto.nomeProduto, dto.descricaoProduto, dto.precoBase, hoje, c))
  }

  /** converterEntidadeParaResponseDto: the base price and the date are rendered as text. */
  function ConverterEntidadeParaResponseDto(p: ProdutoDados): (r: ProdutoResponseDTO)
    ensures r.idProduto == p.idProduto && r.nomeProduto == p.nomeProduto
    ensures r.descricaoProduto == p.descricaoProduto && r.nomeCategoria == p.categoria.nomeCategoria
    ensures r.precoBase == FormatarPreco(p.precoBase) && r.dataCadastro == FormatarData(p.dataCadastro)
  {
    ProdutoResponseDTO(p.idProduto, p.nomeProduto, p.descricaoProduto, FormatarPreco(p.precoBase),
                       p.categoria.nomeCategoria, FormatarData(p.dataCadastro))
  }

  /** converterEntidadeParaPrecoFinalResponseDto: renders the value passed in, not the base price. */
  function ConverterEntidadeParaPrecoFinalResponseDto(p: ProdutoDados, valorFinal: Dec): (r: ProdutoPrecoFinalResponseDTO)
    ensures r.idProduto == p.idProduto && r.nomeProduto == p.nomeProduto
    ensures r.descricaoProduto == p.descricaoProduto && r.nomeCategoria == p.categoria.nomeCategoria
    ensures r.precoFinal == FormatarPreco(valorFinal) && r.dataCadastro == FormatarData(p.dataCadastro)
  {
    ProdutoPrecoFinalResponseDTO(p.idProduto, p.nomeProduto, p.descricaoProduto, FormatarPreco(valorFinal),
                                 p.categoria.nomeCategoria, FormatarData(p.dataCadastro))
  }

  /** The texts of a product response read back as the price in cents and the date. */
  lemma ResponseLegivel(p: ProdutoDados)
    requires 1 <= p.dataCadastro.ano <= 9999
    ensures var r := ConverterEntidadeParaResponseDto(p);
      LerPreco(r.precoBase) == Some(Centavos(p.precoBase)) && LerData(r.dataCadastro) == Some(p.dataCadastro)
  {
    LerPrecoFormatarPreco(p.precoBase);
    LerDataFormatarData(p.dataCadastro);
  }

  /** The same for the final-price response, whose price is the value computed. */
  lemma PrecoFinalResponseLegivel(p: ProdutoDados, valorFinal: Dec)
    requires 1 <= p.dataCadastro.ano <= 9999
    ensures var r := ConverterEntidadeParaPrecoFinalResponseDto(p, valorFinal);
      LerPreco(r.precoFinal) == Some(Centavos(valorFinal)) && LerData(r.dataCadastro) == Some(p.dataCadastro)
  {
    LerPrecoFormatarPreco(valorFinal);
    LerDataFormatarData(p.dataCadastro);
  }

  // ---------------------------------------------------------------------------------------------
  // atualizarProduto

  /** The state the merge leaves its product in, and whether it returned normally. */
  datatype MesclagemProduto = MesclagemProduto(entidade: ProdutoDados, concluida: bool)

  /** Description, name and price: each overwritten exactly when the request carries it. */
  function MesclarCampos(p: ProdutoDados, dto: ProdutoAtualizacaoRequestDTO): ProdutoDados
  {
    var p1 := if dto.descricaoProduto.Some? then p.(descricaoProduto := dto.descricaoProduto.value) else p;
    var p2 := if dto.nomeProduto.Some? then p1.(nomeProduto := dto.nomeProduto.value) else p1;
    if dto.precoBase.Some? then p2.(precoBase := dto.precoBase.value) else p2
  }

  /**
   * The merge: the plain fields first, then a present category name is resolved; an unknown
   * name throws after the plain fields were set. The id and the registration date never change.
   */
  function MesclarProduto(p: ProdutoDados, dto: ProdutoAtualizacaoRequestDTO, categorias: seq<CategoriaDados>)
    : (m: MesclagemProduto)
    ensures m.entidade.idProduto == p.idProduto && m.entidade.dataCadastro == p.dataCadastro
    ensures m.entidade.descricaoProduto ==
      if dto.descricaoProduto.Some? then dto.descricaoProduto.value else p.descricaoProduto
    ensures m.entidade.nomeProduto == if dto.nomeProduto.Some? then dto.nomeProduto.value else p.nomeProduto
    ensures m.entidade.precoBase == if dto.precoBase.Some? then dto.precoBase.value else p.precoBase
    ensures m.concluida <==> dto.nomeCategoria.None? || TemNome(categorias, dto.nomeCategoria.value)
    ensures dto.nomeCategoria.None? || !m.concluida ==> m.entidade.categoria == p.categoria
    ensures dto.nomeCategoria.Some? && m.concluida ==>
      m.entidade.categoria in categorias && m.entidade.categoria.nomeCategoria == dto.nomeCategoria.value
  {
    var p3 := MesclarCampos(p, dto);
    match dto.nomeCategoria
    case None => MesclagemProduto(p3, true)
    case Some(n) =>
      match BuscarPorNome(categorias, n)
      case Ok(c) => MesclagemProduto(p3.(categoria := c), true)
      case Falha(_) => MesclagemProduto(p3, false)
  }

  /** atualizarProduto: mutates and returns the same entity. */
  method AtualizarProduto(produto: Produto, dto: ProdutoAtualizacaoRequestDTO, categorias: seq<CategoriaDados>)
    returns (r: Resultado<Produto>)
    modifies produto
    ensures produto.Dados() == MesclarProduto(old(produto.Dados()), dto, categorias).entidade
    ensures r.Ok? <==> MesclarProduto(old(produto.Dados()), dto, categorias).concluida
    ensures r.Ok? ==> r.valor == produto
    ensures r.Falha? ==> r.erro == NaoEncontrado(CategoriaNaoEncontrada)
  {
    if dto.descricaoProduto.Some? {
      produto.descricaoProduto := dto.descricaoProduto.value;
    }
    if dto.nomeProduto.Some? {
      produto.nomeProduto := dto.nomeProduto.value;
    }
    if dto.precoBase.Some? {
      produto.precoBase := dto.precoBase.value;
    }
    if dto.nomeCategoria.Some? {
      var categoria := BuscarPorNome(categorias, dto.nomeCategoria.value);
      if categoria.Falha? {
        return Falha(categoria.erro);
      }
      produto.categoria := categoria.valor;
    }
    return Ok(produto);
  }
}
