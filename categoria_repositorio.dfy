/**
 * CategoriaRepository.findByNomeCategoria over the rows of table categoria, and the not-found
 * guard that CategoriaService.buscarCategoriaPorNome and ProdutoMapper.buscarCategoria both put
 * after it.
 */
module CategoriaRepositorio {
  import opened Erros
  import opened Mensagens
  import opened Entidades

  /** No two rows share a name (the lookup by name returns at most one row). */
  predicate NomesDistintos(linhas: seq<CategoriaDados>)
  {
    forall i, j :: 0 <= i < j < |linhas| ==> linhas[i].nomeCategoria != linhas[j].nomeCategoria
  }

  /** Some row carries exactly this name (the comparison is case-sensitive). */
  predicate TemNome(linhas: seq<CategoriaDados>, nome: string)
  {
    exists i :: 0 <= i < |linhas| && linhas[i].nomeCategoria == nome
  }

  /** The position of the first row named nome, or |linhas| when there is none. */
  function IndicePorNome(linhas: seq<CategoriaDados>, nome: string): (k: nat)
    ensures k <= |linhas|
    ensures k < |linhas| ==> linhas[k].nomeCategoria == nome
    ensures forall j :: 0 <= j < k ==> linhas[j].nomeCategoria != nome
  {
    if linhas == [] then 0
    else if linhas[0].nomeCategoria == nome then 0
    else 1 + IndicePorNome(linhas[1..], nome)
  }

  /** A row named nome is found exactly when one exists. */
  lemma IndiceEncontra(linhas: seq<CategoriaDados>, nome: string)
    ensures IndicePorNome(linhas, nome) < |linhas| <==> TemNome(linhas, nome)
  {
  }

  /** With distinct names, the row found is the only row with that name. */
  lemma IndiceUnico(linhas: seq<CategoriaDados>, nome: string, k: nat)
    requires NomesDistintos(linhas) && k < |linhas| && linhas[k].nomeCategoria == nome
    ensures IndicePorNome(linhas, nome) == k
  {
  }

  /** findByNomeCategoria. */
  function EncontrarPorNome(linhas: seq<CategoriaDados>, nome: string): (r: Option<CategoriaDados>)
    ensures r.Some? <==> TemNome(linhas, nome)
    ensures r.Some? ==> r.value in linhas && r.value.nomeCategoria == nome
  {
    IndiceEncontra(linhas, nome);
    var k := IndicePorNome(linhas, nome);
    if k < |linhas| then Some(linhas[k]) else None
  }

  /** findByNomeCategoria(nome).orElseThrow(ObjectNotFoundException). */
  function BuscarPorNome(linhas: seq<CategoriaDados>, nome: string): (r: Resultado<CategoriaDados>)
    ensures r.Ok? <==> TemNome(linhas, nome)
    ensures r.Ok? ==> r.valor in linhas && r.valor.nomeCategoria == nome
    ensures r.Falha? ==> r.erro == NaoEncontrado(CategoriaNaoEncontrada)
  {
    match EncontrarPorNome(linhas, nome)
    case Some(c) => Ok(c)
    case None => Falha(NaoEncontrado(CategoriaNaoEncontrada))
  }
}
