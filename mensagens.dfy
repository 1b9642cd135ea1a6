/** The user-facing messages of CategoriaMensagensEnum and ProdutoMensagemEnum. */
module Mensagens {

  // Categories
  const AtualizacaoCategoria: string := "Categoria atualizada com sucesso!"
  const CadastroCategoria: string := "Categoria cadastrada com sucesso!"
  const ExclusaoCategoria: string := "Categoria excluída com sucesso!"
  const ErroAtualizacaoCategoria: string := "Erro ao atualizar categoria, entre em contato com o administrador!"
  const ErroCadastrarCategoria: string := "Erro ao inserir categoria, entre em contato com o administrador!"
  const ErroExcluirCategoria: string := "Erro ao excluir categoria, entre em contato com o administrador!"
  const NenhumaCategoriaCadastrada: string := "nenhuma categoria cadastrada!"
  const CategoriaNaoEncontrada: string := "nenhuma categoria cadastrada com esse nome!"

  // Products (the double space in ErroExclusaoProduto is the source's own)
  const CadastroProduto: string := "Produto cadastrado com sucesso!"
  const ErroCadastrarProduto: string := "Erro ao cadastrar produto, entre em contato com o administrador!"
  const NenhumProdutoCadastrado: string := "nenhum produto cadastrado!"
  const ErroAtualizacaoProduto: string := "Erro ao atualizar o produto, entre em contato com o administrador!"
  const AtualizacaoProduto: string := "Produto atualizado com sucesso!"
  const ExclusaoProduto: string := "Produto excluído com sucesso!"
  const ErroExclusaoProduto: string := "Erro ao excluir  o produto, entre em contato com o administrador!"
  const ProdutoNaoEncontrado: string := "nenhum produto cadastrado com esse id!"

  /** The message CategoriaService builds when a category name is already taken. */
  function CategoriaDuplicada(nome: string): string
  {
    "Uma categoria com nome: " + nome + ", já foi cadastrada!"
  }

  const DescontoETaxa: string := "não é possível cadastrar desconto e taxa para a mesma categoria!"
}
