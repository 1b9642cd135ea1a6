/**
 * The JPA entities Categoria and Produto and the request and response DTOs of the catalogue.
 * A stored row is a value; the mappers' partial updates mutate an entity object loaded from one.
 */
module Entidades {
  import opened Erros
  import opened Decimal
  import opened MetodosUteis

  /**
   * A row of table categoria. idCategoria is None until the first save assigns one. taxa and
   * desconto may be null: the registration DTO only bounds them when present.
   */
  datatype CategoriaDados = CategoriaDados(
    idCategoria: Option<int>,
    nomeCategoria: string,
    descricaoCategoria: string,
    taxa: Option<Dec>,
    desconto: Option<Dec>)

  /** A row of table produto, holding the category it was joined to. */
  datatype ProdutoDados = ProdutoDados(
    idProduto: Option<int>,
    nomeProduto: string,
    descricaoProduto: string,
    precoBase: Dec,
    dataCadastro: DataLocal,
    categoria: CategoriaDados)

  /** A category entity object, as the setters of atualizarCategoriaMapper see it. */
  class Categoria {
    var idCategoria: Option<int>
    var nomeCategoria: string
    var descricaoCategoria: string
    var taxa: Option<Dec>
    var desconto: Option<Dec>

    /** The row this object would be saved as. */
    function Dados(): CategoriaDados
      reads this
    {
      CategoriaDados(idCategoria, nomeCategoria, descricaoCategoria, taxa, desconto)
    }

    /** The object a repository lookup materialises from a row. */
    constructor (d: CategoriaDados)
      ensures Dados() == d
    {
      idCategoria := d.idCategoria;
      nomeCategoria := d.nomeCategoria;
      descricaoCategoria := d.descricaoCategoria;
      taxa := d.taxa;
      desconto := d.desconto;
    }
  }

  /** A product entity object, as the setters of atualizarProduto see it. */
  class Produto {
    var idProduto: Option<int>
    var nomeProduto: string
    var descricaoProduto: string
    var precoBase: Dec
    var dataCadastro: DataLocal
    var categoria: CategoriaDados

    function Dados(): ProdutoDados
      reads this
    {
      ProdutoDados(idProduto, nomeProduto, descricaoProduto, precoBase, dataCadastro, categoria)
    }

    constructor (d: ProdutoDados)
      ensures Dados() == d
    {
      idProduto := d.idProduto;
      nomeProduto := d.nomeProduto;
      descricaoProduto := d.descricaoProduto;
      precoBase := d.precoBase;
      dataCadastro := d.dataCadastro;
      categoria := d.categoria;
    }
  }

  // ---------------------------------------------------------------------------------------------
  // Requests. @NotBlank and @NotNull fields are plain values; the others may be null.

  datatype CategoriaCadastroRequestDTO = CategoriaCadastroRequestDTO(
    nomeCategoria: string,
    descricaoCategoria: string,
    taxa: Option<Dec>,
    desconto: Option<Dec>)

  /** Every field of a category update may be absent. */
  datatype CategoriaAtualizacaoRequestDTO = CategoriaAtualizacaoRequestDTO(
    nomeCategoria: Option<string>,
    descricaoCategoria: Option<string>,
    taxa: Option<Dec>,
    desconto: Option<Dec>)

  datatype ProdutoCadastroRequestDTO = ProdutoCadastroRequestDTO(
    nomeProduto: string,
    descricaoProduto: string,
    precoBase: Dec,
    nomeCategoria: string)

  datatype ProdutoAtualizacaoRequestDTO = ProdutoAtualizacaoRequestDTO(
    nomeProduto: Option<string>,
    descricaoProduto: Option<string>,
    precoBase: Option<Dec>,
    nomeCategoria: Option<string>)

  // ---------------------------------------------------------------------------------------------
  // Responses

  datatype CategoriaResponseDTO = CategoriaResponseDTO(
    nomeCategoria: string,
    descricaoCategoria: string,
    taxa: string,
    desconto: string)

  datatype ProdutoResponseDTO = ProdutoResponseDTO(
    idProduto: Option<int>,
    nomeProduto: string,
    descricaoProduto: string,
    precoBase: string,
    nomeCategoria: string,
    dataCadastro: string)

  datatype ProdutoPrecoFinalResponseDTO = ProdutoPrecoFinalResponseDTO(
    idProduto: Option<int>,
    nomeProduto: string,
    descricaoProduto: string,
    precoFinal: string,
    nomeCategoria: string,
    dataCadastro: string)

  datatype ProdutoResponsePaginadoDTO = ProdutoResponsePaginadoDTO(
    numeroDePaginas: int,
    totalRegistros: int,
    produtos: seq<ProdutoResponseDTO>)
}
