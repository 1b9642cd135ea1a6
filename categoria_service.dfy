/**
 * CategoriaService: registering, listing, updating and deleting categories over the rows of
 * table categoria. A thrown exception becomes a Falha; the boolean falha stands for the
 * repository's save or delete throwing.
 */
module ServicoCategoria {
  import opened Erros
  import opened Decimal
  import opened Mensagens
  import opened Entidades
  import opened CategoriaRepositorio
  import opened CategoriaMapper

  /** validarDescontoOuTaxa: rejects only when both are present and both are non-zero. */
  function ValidarDescontoOuTaxa(desconto: Option<Dec>, taxa: Option<Dec>): (r: Resultado<()>)
    ensures r.Falha? <==> desconto.Some? && taxa.Some? && !IsZero(desconto.value) && !IsZero(taxa.value)
    ensures r.Falha? ==> r.erro == Generico(DescontoETaxa)
  {
    if desconto.None? || taxa.None? then Ok(())
    else if !IsZero(desconto.value) && !IsZero(taxa.value) then Falha(Generico(DescontoETaxa))
    else Ok(())
  }

  /**
   * validarDuplicidadeCategoria: rejects a name some row already has. A null name is looked up
   * as IS NULL, which no stored row matches.
   */
  function ValidarDuplicidade(linhas: seq<CategoriaDados>, nome: Option<string>): (r: Resultado<()>)
    ensures r.Falha? <==> nome.Some? && TemNome(linhas, nome.value)
    ensures r.Falha? ==> r.erro == Generico(CategoriaDuplicada(nome.value))
  {
    match nome
    case None => Ok(())
    case Some(n) => if EncontrarPorNome(linhas, n).Some? then Falha(Generico(CategoriaDuplicada(n))) else Ok(())
  }

  /** At most one of taxa and desconto is a non-zero value. */
  predicate Exclusiva(c: CategoriaDados)
  {
    !(c.taxa.Some? && c.desconto.Some? && !IsZero(c.taxa.value) && !IsZero(c.desconto.value))
  }

  /** The registration guard makes the row it lets through exclusive. */
  lemma CadastroExclusivo(dto: CategoriaCadastroRequestDTO)
    requires ValidarDescontoOuTaxa(dto.desconto, dto.taxa).Ok?
    ensures Exclusiva(ConverterDtoParaEntidade(dto))
  {
  }

  /**
   * The update guard looks at the request alone, so a merge it lets through can leave both a
   * tax and a discount: stored taxa 10, request desconto 10 and taxa 0.
   */
  lemma AtualizacaoQuebraExclusividade()
    ensures var c := CategoriaDados(Some(1), "categoria", "descricao", Some(Dec(10, 0)), Some(Dec(0, 0)));
      var dto := CategoriaAtualizacaoRequestDTO(Some("Outro nome"), Some("descricao"), Some(Dec(0, 0)), Some(Dec(10, 0)));
      Exclusiva(c) && ValidarDescontoOuTaxa(dto.desconto, dto.taxa).Ok? &&
      Mesclar(c, dto).concluida && !Exclusiva(Mesclar(c, dto).entidade)
  {
  }

  /** Ids are assigned below proximoId and increase along the rows (findAll order). */
  predicate IdsCrescentes(linhas: seq<CategoriaDados>, proximoId: int)
  {
    (forall i :: 0 <= i < |linhas| ==> linhas[i].idCategoria.Some? && linhas[i].idCategoria.value < proximoId) &&
    (forall i, j :: 0 <= i < j < |linhas| ==> linhas[i].idCategoria.value < linhas[j].idCategoria.value)
  }

  lemma NomesAoAcrescentar(linhas: seq<CategoriaDados>, c: CategoriaDados)
    requires NomesDistintos(linhas) && !TemNome(linhas, c.nomeCategoria)
    ensures NomesDistintos(linhas + [c])
  {
  }

  lemma NomesAoSubstituir(linhas: seq<CategoriaDados>, k: nat, c: CategoriaDados)
    requires NomesDistintos(linhas) && k < |linhas|
    requires c.nomeCategoria == linhas[k].nomeCategoria || !TemNome(linhas, c.nomeCategoria)
    ensures NomesDistintos(linhas[k := c])
  {
  }

  lemma IdsAoSubstituir(linhas: seq<CategoriaDados>, proximoId: int, k: nat, c: CategoriaDados)
    requires IdsCrescentes(linhas, proximoId) && k < |linhas| && c.idCategoria == linhas[k].idCategoria
    ensures IdsCrescentes(linhas[k := c], proximoId)
  {
  }

  /** Dropping row k keeps the rest in order. */
  function Remover(linhas: seq<CategoriaDados>, k: nat): (r: seq<CategoriaDados>)
    requires k < |linhas|
    ensures |r| == |linhas| - 1
    ensures forall i :: 0 <= i < |r| ==> r[i] == if i < k then linhas[i] else linhas[i + 1]
  {
    linhas[..k] + linhas[k + 1..]
  }

  lemma ValidoAoRemover(linhas: seq<CategoriaDados>, proximoId: int, k: nat)
    requires NomesDistintos(linhas) && IdsCrescentes(linhas, proximoId) && k < |linhas|
    ensures NomesDistintos(Remover(linhas, k)) && IdsCrescentes(Remover(linhas, k), proximoId)
  {
    var r := Remover(linhas, k);
    forall i, j | 0 <= i < j < |r|
      ensures r[i].nomeCategoria != r[j].nomeCategoria && r[i].idCategoria.value < r[j].idCategoria.value
    {
      var i', j' := if i < k then i else i + 1, if j < k then j else j + 1;
      assert r[i] == linhas[i'] && r[j] == linhas[j'] && i' < j';
    }
  }

  class CategoriaService {
    var linhas: seq<CategoriaDados>
    var proximoId: int

    ghost predicate Valid()
      reads this
    {
      NomesDistintos(linhas) && IdsCrescentes(linhas, proximoId)
    }

    /** An empty table whose first identity value is 1. */
    constructor ()
      ensures Valid() && linhas == [] && proximoId == 1
    {
      linhas := [];
      proximoId := 1;
    }

    /**
     * cadastrarCategoria: the duplicate check comes first, then the tax/discount check; a
     * successful save appends the converted row under the next id and returns its name.
     */
    method CadastrarCategoria(dto: CategoriaCadastroRequestDTO, falha: bool) returns (r: Resultado<string>)
      requires Valid()
      modifies this
      ensures Valid()
      ensures TemNome(old(linhas), dto.nomeCategoria) ==>
        r == Falha(Generico(CategoriaDuplicada(dto.nomeCategoria)))
      ensures !TemNome(old(linhas), dto.nomeCategoria) && ValidarDescontoOuTaxa(dto.desconto, dto.taxa).Falha? ==>
        r == Falha(Generico(DescontoETaxa))
      ensures !TemNome(old(linhas), dto.nomeCategoria) && ValidarDescontoOuTaxa(dto.desconto, dto.taxa).Ok? ==>
        r == if falha then Falha(IntegridadeDados(ErroCadastrarCategoria)) else Ok(dto.nomeCategoria)
      ensures r.Ok? ==>
        linhas == old(linhas) + [ConverterDtoParaEntidade(dto).(idCategoria := Some(old(proximoId)))] &&
        Exclusiva(linhas[|linhas| - 1])
      ensures r.Falha? ==> linhas == old(linhas)
    {
      var duplicidade := ValidarDuplicidade(linhas, Some(dto.nomeCategoria));
      if duplicidade.Falha? {
        return Falha(duplicidade.erro);
      }
      var validacao := ValidarDescontoOuTaxa(dto.desconto, dto.taxa);
      if validacao.Falha? {
        return Falha(validacao.erro);
      }
      var categoria := ConverterDtoParaEntidade(dto);
      if falha {
        return Falha(IntegridadeDados(ErroCadastrarCategoria));
      }
      NomesAoAcrescentar(linhas, categoria.(idCategoria := Some(proximoId)));
      CadastroExclusivo(dto);
      linhas := linhas + [categoria.(idCategoria := Some(proximoId))];
      proximoId := proximoId + 1;
      return Ok(categoria.nomeCategoria);
    }

    /** listarCategorias: not found on an empty table, otherwise one response per row, in order. */
    method ListarCategorias() returns (r: Resultado<seq<CategoriaResponseDTO>>)
      ensures r.Falha? <==> linhas == []
      ensures r.Falha? ==> r.erro == NaoEncontrado(NenhumaCategoriaCadastrada)
      ensures r.Ok? ==> |r.valor| == |linhas|
      ensures r.Ok? ==> forall i :: 0 <= i < |linhas| ==> r.valor[i] == ConverterEntidadeParaResponseDto(linhas[i])
    {
      if linhas == [] {
        return Falha(NaoEncontrado(NenhumaCategoriaCadastrada));
      }
      var lista := ConverterLista(linhas);
      return Ok(lista);
    }

    /** listarCategoriaPorNomeCategoria: the response of the row with exactly this name. */
    method ListarCategoriaPorNome(nome: string) returns (r: Resultado<CategoriaResponseDTO>)
      ensures r.Ok? <==> TemNome(linhas, nome)
      ensures r.Ok? ==> exists i :: (0 <= i < |linhas| && linhas[i].nomeCategoria == nome &&
                                     r.valor == ConverterEntidadeParaResponseDto(linhas[i]))
      ensures r.Falha? ==> r.erro == NaoEncontrado(CategoriaNaoEncontrada)
    {
      var busca := BuscarPorNome(linhas, nome);
      if busca.Falha? {
        return Falha(busca.erro);
      }
      return Ok(ConverterEntidadeParaResponseDto(busca.valor));
    }

    /**
     * atualizarCategoriaPorNomeCategoria: the lookup, then the duplicate check on the incoming
     * name (so re-sending the current name is a duplicate), then the tax/discount check on the
     * request, then the merge; a successful save replaces the row in place.
     */
    method AtualizarCategoria(nome: string, dto: CategoriaAtualizacaoRequestDTO, falha: bool)
      returns (r: Resultado<string>)
      requires Valid()
      modifies this
      ensures Valid() && proximoId == old(proximoId)
      ensures !TemNome(old(linhas), nome) ==> r == Falha(NaoEncontrado(CategoriaNaoEncontrada))
      ensures TemNome(old(linhas), nome) && dto.nomeCategoria.Some? && TemNome(old(linhas), dto.nomeCategoria.value) ==>
        r == Falha(Generico(CategoriaDuplicada(dto.nomeCategoria.value)))
      ensures (TemNome(old(linhas), nome) && ValidarDuplicidade(old(linhas), dto.nomeCategoria).Ok? &&
               ValidarDescontoOuTaxa(dto.desconto, dto.taxa).Falha?) ==> r == Falha(Generico(DescontoETaxa))
      ensures (TemNome(old(linhas), nome) && ValidarDuplicidade(old(linhas), dto.nomeCategoria).Ok? &&
               ValidarDescontoOuTaxa(dto.desconto, dto.taxa).Ok?) ==>
        var k := IndicePorNome(old(linhas), nome);
        var m := Mesclar(old(linhas)[k], dto);
        r == (if !m.concluida then Falha(PonteiroNulo)
              else if falha then Falha(IntegridadeDados(ErroAtualizacaoCategoria))
              else Ok(AtualizacaoCategoria))
      ensures r.Ok? ==>
        var k := IndicePorNome(old(linhas), nome);
        linhas == old(linhas)[k := Mesclar(old(linhas)[k], dto).entidade]
      ensures r.Falha? ==> linhas == old(linhas)
    {
      IndiceEncontra(linhas, nome);
      var k := IndicePorNome(linhas, nome);
      if k == |linhas| {
        return Falha(NaoEncontrado(CategoriaNaoEncontrada));
      }
      var duplicidade := ValidarDuplicidade(linhas, dto.nomeCategoria);
      if duplicidade.Falha? {
        return Falha(duplicidade.erro);
      }
      var validacao := ValidarDescontoOuTaxa(dto.desconto, dto.taxa);
      if validacao.Falha? {
        return Falha(validacao.erro);
      }
      var categoria := new Categoria(linhas[k]);
      var atualizada := AtualizarCategoriaMapper(categoria, dto);
      if atualizada.Falha? {
        return Falha(atualizada.erro);
      }
      if falha {
        return Falha(IntegridadeDados(ErroAtualizacaoCategoria));
      }
      NomesAoSubstituir(linhas, k, categoria.Dados());
      IdsAoSubstituir(linhas, proximoId, k, categoria.Dados());
      linhas := linhas[k := categoria.Dados()];
      return Ok(AtualizacaoCategoria);
    }

    /** excluirCategoriaPorNomeCategoria: the lookup, then the delete of that row. */
    method ExcluirCategoria(nome: string, falha: bool) returns (r: Resultado<string>)
      requires Valid()
      modifies this
      ensures Valid() && proximoId == old(proximoId)
      ensures !TemNome(old(linhas), nome) ==> r == Falha(NaoEncontrado(CategoriaNaoEncontrada))
      ensures TemNome(old(linhas), nome) ==>
        r == if falha then Falha(IntegridadeDados(ErroExcluirCategoria)) else Ok(ExclusaoCategoria)
      ensures r.Ok? ==> linhas == Remover(old(linhas), IndicePorNome(old(linhas), nome)) && !TemNome(linhas, nome)
      ensures r.Falha? ==> linhas == old(linhas)
    {
      IndiceEncontra(linhas, nome);
      var k := IndicePorNome(linhas, nome);
      if k == |linhas| {
        return Falha(NaoEncontrado(CategoriaNaoEncontrada));
      }
      if falha {
        return Falha(IntegridadeDados(ErroExcluirCategoria));
      }
      ValidoAoRemover(linhas, proximoId, k);
      SemNomeAoRemover(linhas, k, nome);
      linhas := Remover(linhas, k);
      return Ok(ExclusaoCategoria);
    }
  }

  /** Removing the row with a name removes the name, when names are distinct. */
  lemma SemNomeAoRemover(linhas: seq<CategoriaDados>, k: nat, nome: string)
    requires NomesDistintos(linhas) && k < |linhas| && linhas[k].nomeCategoria == nome
    ensures !TemNome(Remover(linhas, k), nome)
  {
    var r := Remover(linhas, k);
    forall i | 0 <= i < |r|
      ensures r[i].nomeCategoria != nome
    {
      if i >= k {
        assert r[i] == linhas[i + 1];
      }
    }
  }
}
