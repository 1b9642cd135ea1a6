/** Optional values and the typed results that replace the services' exceptions. */
module Erros {

  /** A Java reference that may be null. */
  datatype Option<+T> = None | Some(value: T)

  /**
   * The failures the core raises. Each constructor stands for one exception class:
   * GenericException (HTTP 400), ObjectNotFoundException (404), DataIntegrityException (500),
   * an unchecked NullPointerException that no handler maps (500), and the unchecked
   * IllegalArgumentException that Spring Data's paging arguments raise.
   */
  datatype Erro =
    | Generico(mensagem: string)
    | NaoEncontrado(mensagem: string)
    | IntegridadeDados(mensagem: string)
    | PonteiroNulo
    | ArgumentoInvalido(mensagem: string)

  /** The outcome of an operation that either returns a value or throws one of the errors above. */
  datatype Resultado<+T> = Ok(valor: T) | Falha(erro: Erro)
}
