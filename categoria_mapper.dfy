/**
 * CategoriaMapper: the builders between category DTOs and rows, the list conversion, and the
 * partial update that copies a request's fields onto a loaded entity.
 */
module CategoriaMapper {
  import opened Erros
  import opened Decimal
  import opened MetodosUteis
  import opened Entidades

  /** converterDtoParaEntidade: the fields are copied verbatim and the id is left unset. */
  function ConverterDtoParaEntidade(dto: CategoriaCadastroRequestDTO): (c: CategoriaDados)
    ensures c.idCategoria.None?
    ensures c.nomeCategoria == dto.nomeCategoria && c.descricaoCategoria == dto.descricaoCategoria
    ensures c.taxa == dto.taxa && c.desconto == dto.desconto
  {
    CategoriaDados(None, dto.nomeCategoria, dto.descricaoCategoria, dto.taxa, dto.desconto)
  }

  /** converterEntidadeParaResponseDto: the percentages are rendered with AddPorcentagem. */
  function ConverterEntidadeParaResponseDto(c: CategoriaDados): (r: CategoriaResponseDTO)
    ensures r.nomeCategoria == c.nomeCategoria && r.descricaoCategoria == c.descricaoCategoria
    ensures r.taxa == AddPorcentagem(c.taxa) && r.desconto == AddPorcentagem(c.desconto)
  {
    CategoriaResponseDTO(c.nomeCategoria, c.descricaoCategoria, AddPorcentagem(c.taxa), AddPorcentagem(c.desconto))
  }

  /** A percentage as a response shows it: the decimal it came from, or null. */
  predicate MostraPercentual(texto: string, valor: Option<Dec>)
  {
    |texto| >= 1 && texto[|texto| - 1] == '%' &&
    match valor
    case None => texto == "null%"
    case Some(d) => LerDecimal(texto[..|texto| - 1]) == Some(d)
  }

  /** BigDecimal.toString is plain (not scientific) for this value. */
  predicate FormaSimples(valor: Option<Dec>)
  {
    valor.Some? ==> valor.value.scale == 0 || ExpoenteAjustado(valor.value) >= -6
  }

  lemma MostraAddPorcentagem(valor: Option<Dec>)
    requires FormaSimples(valor)
    ensures MostraPercentual(AddPorcentagem(valor), valor)
  {
    if valor.Some? {
      AddPorcentagemLer(valor.value);
    }
  }

  /** A registered category's response gives back the name, description and percentages sent. */
  lemma ResponseDoCadastro(dto: CategoriaCadastroRequestDTO)
    requires FormaSimples(dto.taxa) && FormaSimples(dto.desconto)
    ensures var r := ConverterEntidadeParaResponseDto(ConverterDtoParaEntidade(dto));
      r.nomeCategoria == dto.nomeCategoria && r.descricaoCategoria == dto.descricaoCategoria &&
      MostraPercentual(r.taxa, dto.taxa) && MostraPercentual(r.desconto, dto.desconto)
  {
    MostraAddPorcentagem(dto.taxa);
    MostraAddPorcentagem(dto.desconto);
  }

  /** converterListaCategoriasEntidadeParaListaCategoriasDto: one response per row, in order. */
  method ConverterLista(categorias: seq<CategoriaDados>) returns (r: seq<CategoriaResponseDTO>)
    ensures |r| == |categorias|
    ensures forall i :: 0 <= i < |categorias| ==> r[i] == ConverterEntidadeParaResponseDto(categorias[i])
  {
    r := [];
    for k := 0 to |categorias|
      invariant |r| == k
      invariant forall i :: 0 <= i < k ==> r[i] == ConverterEntidadeParaResponseDto(categorias[i])
    {
      r := r + [ConverterEntidadeParaResponseDto(categorias[k])];
    }
  }

  // ---------------------------------------------------------------------------------------------
  // atualizarCategoriaMapper

  /** The state the merge leaves its entity in, and whether it returned normally. */
  datatype Mesclagem = Mesclagem(entidade: CategoriaDados, concluida: bool)

  /**
   * The merge, step by step: a present name or description overwrites; then taxa and desconto,
   * in that order, overwrite when non-zero and leave the stored value when zero. A null taxa or
   * desconto makes compareTo throw, leaving the fields already set.
   */
  function Mesclar(c: CategoriaDados, dto: CategoriaAtualizacaoRequestDTO): (m: Mesclagem)
    ensures m.entidade.idCategoria == c.idCategoria
    ensures m.entidade.nomeCategoria == if dto.nomeCategoria.Some? then dto.nomeCategoria.value else c.nomeCategoria
    ensures m.entidade.descricaoCategoria ==
      if dto.descricaoCategoria.Some? then dto.descricaoCategoria.value else c.descricaoCategoria
    ensures m.concluida <==> dto.taxa.Some? && dto.desconto.Some?
    ensures m.entidade.taxa == if dto.taxa.Some? && !IsZero(dto.taxa.value) then dto.taxa else c.taxa
    ensures m.entidade.desconto ==
      if m.concluida && !IsZero(dto.desconto.value) then dto.desconto else c.desconto
  {
    var c1 := if dto.nomeCategoria.Some? then c.(nomeCategoria := dto.nomeCategoria.value) else c;
    var c2 := if dto.descricaoCategoria.Some? then c1.(descricaoCategoria := dto.descricaoCategoria.value) else c1;
    match dto.taxa
    case None => Mesclagem(c2, false)
    case Some(t) =>
      var c3 := if !IsZero(t) then c2.(taxa := Some(t)) else c2;
      match dto.desconto
      case None => Mesclagem(c3, false)
      case Some(d) => Mesclagem(if !IsZero(d) then c3.(desconto := Some(d)) else c3, true)
  }

  /** atualizarCategoriaMapper: mutates and returns the same entity. */
  method AtualizarCategoriaMapper(categoria: Categoria, dto: CategoriaAtualizacaoRequestDTO)
    returns (r: Resultado<Categoria>)
    modifies categoria
    ensures categoria.Dados() == Mesclar(old(categoria.Dados()), dto).entidade
    ensures r.Ok? <==> Mesclar(old(categoria.Dados()), dto).concluida
    ensures r.Ok? ==> r.valor == categoria
    ensures r.Falha? ==> r.erro == PonteiroNulo
  {
    if dto.nomeCategoria.Some? {
      categoria.nomeCategoria := dto.nomeCategoria.value;
    }
    if dto.descricaoCategoria.Some? {
      categoria.descricaoCategoria := dto.descricaoCategoria.value;
    }
    if dto.taxa.None? {
      return Falha(PonteiroNulo);
    }
    if !IsZero(dto.taxa.value) {
      categoria.taxa := dto.taxa;
    }
    if dto.desconto.None? {
      return Falha(PonteiroNulo);
    }
    if !IsZero(dto.desconto.value) {
      categoria.desconto := dto.desconto;
    }
    return Ok(categoria);
  }
}
