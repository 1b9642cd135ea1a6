/**
 * The WHERE clause of ProdutoRepository.listarProdutos: three optional filters, each a
 * case-insensitive LIKE '%filter%' on one field, all of which must hold.
 */
module ProdutoRepositorio {
  import opened Erros
  import opened Texto
  import opened Entidades

  /** A filter that is absent, or holds no wildcard and no escape character. */
  predicate SemCuringas(filtro: Option<string>)
  {
    filtro.None? || NoWildcards(filtro.value)
  }

  /** The reading of one filter as a plain search: absent, or a case-insensitive substring. */
  predicate FiltroContem(campo: string, filtro: Option<string>)
  {
    filtro.None? || Contains(LowerString(campo), LowerString(filtro.value))
  }

  /** The same plain search, for all three fields of a product. */
  predicate ContemFiltros(p: ProdutoDados, nome: Option<string>, descricao: Option<string>, nomeCategoria: Option<string>)
  {
    FiltroContem(p.nomeProduto, nome) &&
    FiltroContem(p.descricaoProduto, descricao) &&
    FiltroContem(p.categoria.nomeCategoria, nomeCategoria)
  }

  /** Lower-casing never creates a LIKE wildcard. */
  lemma LowerSemCuringas(f: string)
    requires NoWildcards(f)
    ensures NoWildcards(LowerString(f))
  {
  }

  lemma LowerPadrao(f: string)
    ensures LowerString("%" + f + "%") == "%" + LowerString(f) + "%"
  {
    LowerStringConcat("%" + f, "%");
    LowerStringConcat("%", f);
  }

  /** For a wildcard-free filter, the lower-cased pattern matches iff the filter occurs in the field. */
  lemma PadraoContem(campo: string, f: string)
    ensures NoWildcards(f) ==>
              (Like(LowerString(campo), LowerString("%" + f + "%")) <==> Contains(LowerString(campo), LowerString(f)))
  {
    if NoWildcards(f) {
      LowerPadrao(f);
      LowerSemCuringas(f);
      LikeContains(LowerString(campo), LowerString(f));
    }
  }

  /**
   * (:filtro IS NULL OR LOWER(campo) LIKE LOWER(CONCAT('%', :filtro, '%'))).
   * For a filter without wildcards this is the plain case-insensitive search.
   */
  function CampoCorresponde(campo: string, filtro: Option<string>): (r: bool)
    ensures SemCuringas(filtro) ==> (r <==> FiltroContem(campo, filtro))
  {
    if filtro.None? then true
    else
      PadraoContem(campo, filtro.value);
      Like(LowerString(campo), LowerString("%" + filtro.value + "%"))
  }

  /** The whole WHERE clause, for one product. */
  function Corresponde(p: ProdutoDados, nome: Option<string>, descricao: Option<string>, nomeCategoria: Option<string>): (r: bool)
    ensures SemCuringas(nome) && SemCuringas(descricao) && SemCuringas(nomeCategoria) ==>
              (r <==> ContemFiltros(p, nome, descricao, nomeCategoria))
  {
    CampoCorresponde(p.nomeProduto, nome) &&
    CampoCorresponde(p.descricaoProduto, descricao) &&
    CampoCorresponde(p.categoria.nomeCategoria, nomeCategoria)
  }

  /** A match ignores the case of both the field and the filter. */
  lemma CampoIgnoraCaixa(campo: string, f: string, g: string)
    requires NoWildcards(f) && NoWildcards(g) && EqualsIgnoreCase(f, g)
    ensures CampoCorresponde(campo, Some(f)) <==> CampoCorresponde(campo, Some(g))
  {
  }

  /** The empty filter matches every field: it is not the same as a null filter, but acts alike. */
  lemma FiltroVazio(campo: string)
    ensures CampoCorresponde(campo, Some(""))
  {
    assert "%" + "" + "%" == "%%";
    assert LowerString("%%") == "%%";
    assert "%%" == ['%'] + "%";
    LikeLeadingPercent(LowerString(campo), "%");
    LikePercent(LowerString(campo));
    assert LowerString(campo)[0..] == LowerString(campo);
  }

  /** The ids of the products the query selects. */
  function Selecionados(produtos: map<int, ProdutoDados>, nome: Option<string>, descricao: Option<string>,
                        nomeCategoria: Option<string>): (s: set<int>)
    ensures s <= produtos.Keys
    ensures SemCuringas(nome) && SemCuringas(descricao) && SemCuringas(nomeCategoria) ==>
              forall id :: id in s <==> id in produtos && ContemFiltros(produtos[id], nome, descricao, nomeCategoria)
  {
    set id | id in produtos && Corresponde(produtos[id], nome, descricao, nomeCategoria)
  }

  /** Supplying a filter where there was none never selects more products. */
  lemma FiltroRestringe(produtos: map<int, ProdutoDados>, nome: Option<string>, descricao: Option<string>,
                        nomeCategoria: Option<string>, f: string)
    ensures Selecionados(produtos, Some(f), descricao, nomeCategoria) <= Selecionados(produtos, None, descricao, nomeCategoria)
    ensures Selecionados(produtos, nome, Some(f), nomeCategoria) <= Selecionados(produtos, nome, None, nomeCategoria)
    ensures Selecionados(produtos, nome, descricao, Some(f)) <= Selecionados(produtos, nome, descricao, None)
  {
    forall id | id in Selecionados(produtos, Some(f), descricao, nomeCategoria)
      ensures id in Selecionados(produtos, None, descricao, nomeCategoria)
    {
      assert Corresponde(produtos[id], None, descricao, nomeCategoria);
    }
    forall id | id in Selecionados(produtos, nome, Some(f), nomeCategoria)
      ensures id in Selecionados(produtos, nome, None, nomeCategoria)
    {
      assert Corresponde(produtos[id], nome, None, nomeCategoria);
    }
    forall id | id in Selecionados(produtos, nome, descricao, Some(f))
      ensures id in Selecionados(produtos, nome, descricao, None)
    {
      assert Corresponde(produtos[id], nome, descricao, None);
    }
  }
}
