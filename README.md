# desafio-cassi: categories, products and final prices, in Dafny

desafio-cassi is a Spring Boot REST service for a product catalogue. A **categoria** has a unique
name, a description and two optional percentages, `taxa` (a surcharge) and `desconto` (a
discount). A **produto** has a name, a description, a base price, a registration date and one
category. The service layer registers, lists, updates and deletes both. A product's final price is
its base price adjusted by its category's percentage. The discount takes precedence over the tax.
The percentage is first rounded to a whole number, and the price is then rounded HALF_UP to the
cent. Responses render prices in the pt-BR currency format and dates as `dd/MM/yyyy`.

The model has these modules:

- `Erros` (erros.dfy): `Option` for Java's nullable references, and `Resultado` with one `Erro`
  constructor per exception class the core throws.
- `Mensagens` (mensagens.dfy): the messages of the two message enums.
- `Decimal` (decimal.dfy): `java.math.BigDecimal` as an unscaled integer and a scale. It has
  `add`, `multiply`, `negate`, `setScale` and `divide` with HALF_UP, and HALF_EVEN for the
  currency format. Every rounding is characterised by its bounds. A ghost `real` view shows that
  `add` and `multiply` are exact.
- `Texto` (texto.dfy): decimal digits, zero padding, `LOWER`, `equalsIgnoreCase` and the JPQL
  `LIKE` matcher.
- `MetodosUteis` (metodos_uteis.dfy): `AddPorcentagem`, which is `BigDecimal.toString` followed by
  `%`; `formatarData`; `formatarPreco`. Each rendering comes with a reader, proved to recover what
  was rendered within stated limits: the percentage in plain notation, dates with years 1 to 9999,
  and prices as their amount rounded to whole cents.
- `Entidades` (entidades.dfy): the JPA entities as classes with the fields the mappers set
  (`Categoria`, `Produto`), their rows as values (`CategoriaDados`, `ProdutoDados`), and the
  request and response DTOs.
- `CategoriaRepositorio` (categoria_repositorio.dfy): `findByNomeCategoria` over the rows of
  table categoria.
- `CategoriaMapper` (categoria_mapper.dfy) and `ProdutoMapper` (produto_mapper.dfy): the
  builders, and the partial updates as methods that mutate the loaded entity in place.
- `ProdutoRepositorio` (produto_repositorio.dfy): the WHERE clause of `listarProdutos`.
- `ServicoCategoria` (categoria_service.dfy) and `ServicoProduto` (produto_service.dfy): the two
  services. Each is a class whose fields are the table, together with the next identity value.

Thrown exceptions become `Falha` results. Each operation that saves or deletes takes a boolean
`falha` that stands for the repository call throwing, which the services turn into a
DataIntegrityException. The current date (`LocalDate.now()`) is a parameter `hoje`. The paged
repository query of `listarProdutos` is a function parameter `consulta`. The category rows that
`ProdutoMapper` looks names up in are a parameter `categorias`.

## Model

| member | source | states |
|---|---|---|
| Decimal.RoundHalfUpDiv | src/main/java/com/cassi/desafiocassi/services/produto/ProdutoService.java:152-154 | the quotient rounded HALF_UP: within half a unit of n/m, ties away from zero |
| Decimal.RoundHalfUpCancel | src/main/java/com/cassi/desafiocassi/services/produto/ProdutoService.java:152-154 | scaling numerator and denominator by the same positive factor does not change a HALF_UP rounding |
| Decimal.RoundHalfUpMono | src/main/java/com/cassi/desafiocassi/services/produto/ProdutoService.java:152-154 | HALF_UP rounding is monotone in the numerator |
| Decimal.RoundHalfEvenDiv | src/main/java/com/cassi/desafiocassi/util/MetodosUteis.java:32-36 | the quotient rounded HALF_EVEN (the currency format's rounding): within half a unit, ties to the even neighbour |
| Decimal.SetScale | src/main/java/com/cassi/desafiocassi/services/produto/ProdutoService.java:154 | setScale(t, HALF_UP): scale t, value rounded HALF_UP to t places |
| Decimal.Divide | src/main/java/com/cassi/desafiocassi/services/produto/ProdutoService.java:152 | divide(b, t, HALF_UP): scale t, the exact quotient rounded HALF_UP to t places |
| Decimal.Negate | src/main/java/com/cassi/desafiocassi/services/produto/ProdutoService.java:147 | negate keeps the scale and gives exactly the opposite value |
| Decimal.Add | src/main/java/com/cassi/desafiocassi/services/produto/ProdutoService.java:152 | add is exact: the sum of the values, at the larger of the two scales |
| Decimal.Multiply | src/main/java/com/cassi/desafiocassi/services/produto/ProdutoService.java:154 | multiply is exact: the product of the values, at the sum of the scales |
| Texto.LikeContains | src/main/java/com/cassi/desafiocassi/h2/repository/ProdutoRepository.java:13-16 | for a pattern free of wildcards, LIKE '%f%' holds exactly when the field contains f |
| MetodosUteis.DecToString | src/main/java/com/cassi/desafiocassi/util/MetodosUteis.java:22-25 | BigDecimal.toString: a non-empty string of digits, sign, point and exponent characters |
| MetodosUteis.LerDecimalDecToString | src/main/java/com/cassi/desafiocassi/util/MetodosUteis.java:22-25 | in plain notation the string form reads back as the same decimal, scale included |
| MetodosUteis.AddPorcentagem | src/main/java/com/cassi/desafiocassi/util/MetodosUteis.java:22-25 | the text ends in '%', and that final '%' is the only one |
| MetodosUteis.AddPorcentagemLer | src/main/java/com/cassi/desafiocassi/util/MetodosUteis.java:22-25 | dropping the final '%' gives back the rendered decimal |
| MetodosUteis.AddPorcentagemInteiros | src/main/java/com/cassi/desafiocassi/util/MetodosUteis.java:22-25 | 10 renders "10%", 0 renders "0%", and null renders "null%" |
| MetodosUteis.AddPorcentagemEscala | src/main/java/com/cassi/desafiocassi/util/MetodosUteis.java:22-25 | 10.00 renders "10.00%": trailing zeros of the scale are kept |
| MetodosUteis.AddPorcentagemMeio | src/main/java/com/cassi/desafiocassi/util/MetodosUteis.java:22-25 | 0.5 renders "0.5%" |
| MetodosUteis.FormatarData | src/main/java/com/cassi/desafiocassi/util/MetodosUteis.java:43-46 | day and month take two digits each, reading back as the day and month, between two '/'; the year follows |
| MetodosUteis.LerDataFormatarData | src/main/java/com/cassi/desafiocassi/util/MetodosUteis.java:43-46 | for years 1 to 9999 the text has ten characters and reads back as the same date |
| MetodosUteis.FormatarDataInjetiva | src/main/java/com/cassi/desafiocassi/util/MetodosUteis.java:43-46 | two dates with years 1 to 9999 and the same text are the same date |
| MetodosUteis.FormatarDataAnoLongo | src/main/java/com/cassi/desafiocassi/util/MetodosUteis.java:43-46 | a year of era above 9999 is written after a '+', and the text grows past ten characters |
| MetodosUteis.SemPontosAgrupar | src/main/java/com/cassi/desafiocassi/util/MetodosUteis.java:32-36 | the thousands grouping only inserts '.', so removing the dots restores the digits |
| MetodosUteis.FormatarPreco | src/main/java/com/cassi/desafiocassi/util/MetodosUteis.java:32-36 | the text starts with '-', "R$" and a no-break space (U+00A0) exactly when the price is negative, sign taken before rounding; otherwise with "R$" and the no-break space |
| MetodosUteis.LerPrecoFormatarPreco | src/main/java/com/cassi/desafiocassi/util/MetodosUteis.java:32-36 | the currency text reads back as exactly the HALF_EVEN-rounded amount in cents, sign included |
| MetodosUteis.CentavosExatos | src/main/java/com/cassi/desafiocassi/util/MetodosUteis.java:32-36 | a price with at most two decimals is shown without rounding |
| MetodosUteis.FormatarPrecoNoventa | src/test/java/com/cassi/desafiocassi/testcontroller/ProdutoResourceTest.java:352 | 90.00 is shown as "R$\u00A090,00", the string the resource test expects |
| MetodosUteis.FormatarPrecoCentoEDez | src/test/java/com/cassi/desafiocassi/testcontroller/ProdutoResourceTest.java:377 | 110.00 is shown as "R$\u00A0110,00", the string the resource test expects |
| MetodosUteis.FormatarPrecoCem | src/test/java/com/cassi/desafiocassi/testcontroller/ProdutoResourceTest.java:403 | 100.00 is shown as "R$\u00A0100,00", the string the resource test expects |
| MetodosUteis.FormatarPrecoMilhar | src/main/java/com/cassi/desafiocassi/util/MetodosUteis.java:32-36 | 1234.56 is shown as "R$\u00A01.234,56", with '.' between thousands |
| MetodosUteis.FormatarPrecoZeroNegativo | src/main/java/com/cassi/desafiocassi/util/MetodosUteis.java:32-36 | -0.001 rounds to zero cents but keeps its sign: "-R$\u00A00,00" |
| MetodosUteis.CentavosSinal | src/main/java/com/cassi/desafiocassi/util/MetodosUteis.java:32-36 | rounding to the cent never flips the sign of a price |
| CategoriaRepositorio.IndicePorNome | src/main/java/com/cassi/desafiocassi/h2/repository/CategoriaRepository.java:16 | the position of the first row with the name, or the length when no row has it |
| CategoriaRepositorio.IndiceUnico | src/main/java/com/cassi/desafiocassi/h2/repository/CategoriaRepository.java:16 | with distinct names, the row found is the only one with that name |
| CategoriaRepositorio.EncontrarPorNome | src/main/java/com/cassi/desafiocassi/h2/repository/CategoriaRepository.java:16 | findByNomeCategoria: present exactly when some row has the name, and then it is such a row |
| CategoriaRepositorio.BuscarPorNome | src/main/java/com/cassi/desafiocassi/services/categoria/CategoriaService.java:144-151 | the row with the name, or not found with CATEGORIA_NAO_ENCONTRADA when no row has it |
| CategoriaMapper.ConverterDtoParaEntidade | src/main/java/com/cassi/desafiocassi/mappers/categoria/CategoriaMapper.java:21-28 | name, description, taxa and desconto are copied, and no id is set |
| CategoriaMapper.ConverterEntidadeParaResponseDto | src/main/java/com/cassi/desafiocassi/mappers/categoria/CategoriaMapper.java:35-42 | name and description are copied; taxa and desconto are rendered by AddPorcentagem |
| CategoriaMapper.MostraAddPorcentagem | src/main/java/com/cassi/desafiocassi/mappers/categoria/CategoriaMapper.java:39-40 | a rendered percentage shows its decimal, or "null%" for a missing one |
| CategoriaMapper.ResponseDoCadastro | src/main/java/com/cassi/desafiocassi/mappers/categoria/CategoriaMapper.java:21-42 | a registered category's response gives back the name, description and both percentages sent |
| CategoriaMapper.ConverterLista | src/main/java/com/cassi/desafiocassi/mappers/categoria/CategoriaMapper.java:49-56 | one response per category, in the same order |
| CategoriaMapper.Mesclar | src/main/java/com/cassi/desafiocassi/mappers/categoria/CategoriaMapper.java:65-80 | field by field: a present name or description overwrites; a non-zero taxa or desconto overwrites and a zero keeps the stored value; a null taxa or desconto throws after the earlier fields are set; the id never changes |
| CategoriaMapper.AtualizarCategoriaMapper | src/main/java/com/cassi/desafiocassi/mappers/categoria/CategoriaMapper.java:65-80 | mutates the entity to the merged state and returns that same entity, or throws a NullPointerException |
| ServicoCategoria.ValidarDescontoOuTaxa | src/main/java/com/cassi/desafiocassi/services/categoria/CategoriaService.java:128-136 | rejects exactly when both percentages are present and non-zero |
| ServicoCategoria.ValidarDuplicidade | src/main/java/com/cassi/desafiocassi/services/categoria/CategoriaService.java:116-121 | rejects exactly when some row already has the (non-null) name, with the message naming it |
| ServicoCategoria.CadastroExclusivo | src/main/java/com/cassi/desafiocassi/services/categoria/CategoriaService.java:37-48 | a registration the guard accepts stores at most one non-zero percentage |
| ServicoCategoria.AtualizacaoQuebraExclusividade | src/main/java/com/cassi/desafiocassi/services/categoria/CategoriaService.java:83-95 | the update guard reads only the request: stored taxa 10 plus request desconto 10 and taxa 0 passes the guard and leaves both non-zero |
| ServicoCategoria.NomesAoAcrescentar | src/main/java/com/cassi/desafiocassi/services/categoria/CategoriaService.java:37-48 | appending a row under a new name keeps names distinct |
| ServicoCategoria.NomesAoSubstituir | src/main/java/com/cassi/desafiocassi/services/categoria/CategoriaService.java:83-95 | replacing a row by one with its own name or a new name keeps names distinct |
| ServicoCategoria.IdsAoSubstituir | src/main/java/com/cassi/desafiocassi/services/categoria/CategoriaService.java:83-95 | replacing a row by one with the same id keeps the ids increasing |
| ServicoCategoria.Remover | src/main/java/com/cassi/desafiocassi/services/categoria/CategoriaService.java:102-110 | deleting one row keeps all the others, in order |
| ServicoCategoria.ValidoAoRemover | src/main/java/com/cassi/desafiocassi/services/categoria/CategoriaService.java:102-110 | deleting a row keeps names distinct and ids increasing |
| ServicoCategoria.SemNomeAoRemover | src/main/java/com/cassi/desafiocassi/services/categoria/CategoriaService.java:102-110 | after the delete no row has the deleted name |
| ServicoCategoria.CategoriaService.CadastrarCategoria | src/main/java/com/cassi/desafiocassi/services/categoria/CategoriaService.java:37-48 | duplicate name, then both percentages, then a failing save, each with its error; on success the row is appended under the next id and the name is returned; names stay distinct |
| ServicoCategoria.CategoriaService.ListarCategorias | src/main/java/com/cassi/desafiocassi/services/categoria/CategoriaService.java:55-64 | not found on an empty table, otherwise one response per row, in order |
| ServicoCategoria.CategoriaService.ListarCategoriaPorNome | src/main/java/com/cassi/desafiocassi/services/categoria/CategoriaService.java:71-75 | the response of the row with that name, or not found when there is none |
| ServicoCategoria.CategoriaService.AtualizarCategoria | src/main/java/com/cassi/desafiocassi/services/categoria/CategoriaService.java:83-95 | lookup, duplicate check on the incoming name, percentage check on the request, merge, save, in that order; on success only that row changes, to the merged row |
| ServicoCategoria.CategoriaService.ExcluirCategoria | src/main/java/com/cassi/desafiocassi/services/categoria/CategoriaService.java:102-110 | not found, or a failing delete, or the row removed and the rest kept |
| ProdutoMapper.ConverterRequestDtoParaEntidade | src/main/java/com/cassi/desafiocassi/mappers/produto/ProdutoMapper.java:32-41 | fields copied, registration date today, category resolved by name; not found when no category has the name |
| ProdutoMapper.ConverterEntidadeParaResponseDto | src/main/java/com/cassi/desafiocassi/mappers/produto/ProdutoMapper.java:48-58 | id, names and description are copied; the base price and the date are rendered |
| ProdutoMapper.ConverterEntidadeParaPrecoFinalResponseDto | src/main/java/com/cassi/desafiocassi/mappers/produto/ProdutoMapper.java:66-76 | the same, with the value passed in rendered as the price |
| ProdutoMapper.ResponseLegivel | src/main/java/com/cassi/desafiocassi/mappers/produto/ProdutoMapper.java:48-58 | the response's price and date read back as the product's cents and date |
| ProdutoMapper.PrecoFinalResponseLegivel | src/main/java/com/cassi/desafiocassi/mappers/produto/ProdutoMapper.java:66-76 | the final-price response's price reads back as the final value's cents |
| ProdutoMapper.MesclarProduto | src/main/java/com/cassi/desafiocassi/mappers/produto/ProdutoMapper.java:85-101 | each present field overwrites; a present category name is resolved or throws after the plain fields are set; id and date never change |
| ProdutoMapper.AtualizarProduto | src/main/java/com/cassi/desafiocassi/mappers/produto/ProdutoMapper.java:85-111 | mutates the entity to the merged state and returns that same entity, or not found for an unknown category |
| ProdutoRepositorio.CampoCorresponde | src/main/java/com/cassi/desafiocassi/h2/repository/ProdutoRepository.java:13-16 | a null filter matches every field; a filter free of wildcards and escapes matches exactly when the field's lower case contains the filter's lower case |
| ProdutoRepositorio.Corresponde | src/main/java/com/cassi/desafiocassi/h2/repository/ProdutoRepository.java:13-16 | for filters free of wildcards and escapes, a product matches exactly when each present filter occurs, ignoring case, in its own field |
| ProdutoRepositorio.CampoIgnoraCaixa | src/main/java/com/cassi/desafiocassi/h2/repository/ProdutoRepository.java:13-16 | filters that differ only in case select the same fields |
| ProdutoRepositorio.FiltroVazio | src/main/java/com/cassi/desafiocassi/h2/repository/ProdutoRepository.java:13-16 | the empty filter matches every field |
| ProdutoRepositorio.Selecionados | src/main/java/com/cassi/desafiocassi/h2/repository/ProdutoRepository.java:13-16 | only stored ids are selected; for filters free of wildcards and escapes, exactly the stored products whose name, description and category name contain the present filters, ignoring case |
| ProdutoRepositorio.FiltroRestringe | src/main/java/com/cassi/desafiocassi/h2/repository/ProdutoRepository.java:13-16 | supplying any one filter never selects more products |
| ServicoProduto.AjustePreco | src/main/java/com/cassi/desafiocassi/services/produto/ProdutoService.java:143-150 | the negated discount when it is non-zero, else the tax when non-zero, else zero; a null percentage that gets compared throws |
| ServicoProduto.DescontoPrevalece | src/main/java/com/cassi/desafiocassi/services/produto/ProdutoService.java:146-150 | with both percentages non-zero, the discount is applied |
| ServicoProduto.Fator | src/main/java/com/cassi/desafiocassi/services/produto/ProdutoService.java:152 | the factor is 1 + p/100 at scale 2, for the percentage rounded HALF_UP to a whole number |
| ServicoProduto.PercentualExemplos | src/main/java/com/cassi/desafiocassi/services/produto/ProdutoService.java:152 | 10.5 applies as 11, -10.5 as -11, 10.4 as 10 and 14.99 as 15 |
| ServicoProduto.PrecoFinal | src/main/java/com/cassi/desafiocassi/services/produto/ProdutoService.java:152-154 | the final price has scale 2, and in cents is base * (100 + p) rounded HALF_UP to the cent |
| ServicoProduto.DescontoNaoEncarece | src/main/java/com/cassi/desafiocassi/services/produto/ProdutoService.java:146-154 | for a positive base, a discount from 0 to 100 gives a price between zero and the base |
| ServicoProduto.TaxaNaoBarateia | src/main/java/com/cassi/desafiocassi/services/produto/ProdutoService.java:148-154 | for a positive base, a non-negative tax never gives less than the base |
| ServicoProduto.SemAjuste | src/main/java/com/cassi/desafiocassi/services/produto/ProdutoService.java:143-154 | with no adjustment the final price is the base rounded to the cent |
| ServicoProduto.PrecoFinalDe | src/main/java/com/cassi/desafiocassi/services/produto/ProdutoService.java:141-154 | the final price of a product, or the NullPointerException of its category's percentages |
| ServicoProduto.PrecoFinalExemplos | src/main/java/com/cassi/desafiocassi/services/produto/ProdutoService.java:143-154 | base 100 gives 90.00 with discount 10, 110.00 with tax 10 and 100.00 with neither |
| ServicoProduto.DirecaoOrdenacao | src/main/java/com/cassi/desafiocassi/services/produto/ProdutoService.java:69 | descending exactly when the text equals "desc" ignoring case |
| ServicoProduto.DirecaoExemplos | src/main/java/com/cassi/desafiocassi/services/produto/ProdutoService.java:69 | "desc", "DESC" and "Desc" sort descending; "asc", "" and "descendente" ascending |
| ServicoProduto.ValidarPaginacao | src/main/java/com/cassi/desafiocassi/services/produto/ProdutoService.java:70 | the sort property must have text, then the page index must be at least 0, then the size at least 1; each failure has its own error |
| ServicoProduto.PaginacaoPadrao | src/main/java/com/cassi/desafiocassi/controllers/produto/ProdutoController.java:70-73 | the controller's defaults are accepted and sort ascending |
| ServicoProduto.ListarProdutos | src/main/java/com/cassi/desafiocassi/services/produto/ProdutoService.java:61-88 | bad paging throws first; an empty page is not found; otherwise the page's totals and one response per product, in order |
| ServicoProduto.ListagemUmProduto | src/test/java/com/cassi/desafiocassi/services/ProdutoServiceTest.java:74-100 | a one-product page gives one response with totals of one |
| ServicoProduto.ListagemVazia | src/test/java/com/cassi/desafiocassi/services/ProdutoServiceTest.java:102-125 | an empty page gives NENHUM_PRODUTO_CADASTRADO |
| ServicoProduto.ListagemFiltrada | src/main/java/com/cassi/desafiocassi/services/produto/ProdutoService.java:61-88 | when the query honours the WHERE clause, every listed response meets the three filters |
| ServicoProduto.ListagemDoEstoque | src/main/java/com/cassi/desafiocassi/services/produto/ProdutoService.java:61-88 | when the page holds stored products the WHERE clause selects, every listed response is a stored product meeting the three filters |
| ServicoProduto.EstoqueSemSelecionados | src/main/java/com/cassi/desafiocassi/services/produto/ProdutoService.java:61-88 | when the page holds stored products the WHERE clause selects, and no stored product meets the filters, valid paging gives NENHUM_PRODUTO_CADASTRADO |
| ServicoProduto.ProdutoService.BuscarProdutoPorId | src/main/java/com/cassi/desafiocassi/services/produto/ProdutoService.java:163-169 | the stored product, or not found exactly when the id is absent |
| ServicoProduto.ProdutoService.CadastrarProduto | src/main/java/com/cassi/desafiocassi/services/produto/ProdutoService.java:39-47 | unknown category, then a failing save, each with its error; on success the product is stored under a fresh id, which is returned |
| ServicoProduto.ProdutoService.ListarProdutoPorId | src/main/java/com/cassi/desafiocassi/services/produto/ProdutoService.java:95-99 | the stored product's response, or not found |
| ServicoProduto.ProdutoService.AtualizarProdutoPorId | src/main/java/com/cassi/desafiocassi/services/produto/ProdutoService.java:107-116 | not found, unknown category or failing save, each with its error; on success only that product changes, to the merged row |
| ServicoProduto.ProdutoService.ExcluirProdutoPorId | src/main/java/com/cassi/desafiocassi/services/produto/ProdutoService.java:123-132 | not found, or a failing delete, or exactly that id removed |
| ServicoProduto.ProdutoService.CalcularPrecoFinal | src/main/java/com/cassi/desafiocassi/services/produto/ProdutoService.java:140-156 | not found, or the NullPointerException of a null percentage, or the response carrying the final price |

## Left out

- The controllers, the exception handler's HTTP mapping, Swagger and the bean-validation annotations on the DTOs are not modelled. Each request field is taken as given, and `Option` stands for a field that may be null.
- Database execution is not modelled: the JPA query, paging, sort execution, the identity generator's gaps and transactions. The product query is the parameter `consulta`, and ids come from a counter.
- A failing save or delete is a boolean parameter. The store's real failure causes (constraints, a lost connection) are not modelled.
- Logging and `LocalDate.now()` are not modelled; the date is the parameter `hoje`.
- Concurrency is not modelled: concurrent requests, and the race between the duplicate-name check and the save.
- A product holds a snapshot of its category row. Renaming or deleting a category is not propagated to the products that reference it, and the foreign-key rejection of deleting a used category is covered only by the boolean failure.
- `ProdutoMapper` looks up categories in a parameter `categorias`, not in the category service's own table. The two stores are not linked.
- The Java declaration of `CategoriaAtualizacaoRequestDTO` is not available to this model. `Entidades.CategoriaAtualizacaoRequestDTO` takes its fields (name, description, taxa, desconto, all nullable) from the getters the mapper calls. The mapper signatures name an older `CategoriaRequestDTO`, which is modelled as the registration and update DTOs those calls receive.
- A failed update leaves the stored row unchanged, even though the mapper had already mutated the loaded entity. A managed entity flushed in an open persistence context is not modelled.
- MetodosUteis.FormatarPreco: the minus sign is modelled as a leading '-' before "R$", the pt-BR negative prefix. Other locales and currency symbols are not modelled.
- MetodosUteis.DecToString: negative scales, and so the "1E+3" forms they print, are not modelled, because `Dec` has a non-negative scale. Scientific notation for small adjusted exponents is rendered, but LerDecimal reads plain notation only.
- A negative zero is not modelled: BigDecimal has no signed zero, and the model has none either.
- Texto.Lower: `LOWER` and `equalsIgnoreCase` fold ASCII and Latin-1 letters only; other Unicode case mappings are left out.
- Texto.Like: the LIKE escape character is not interpreted. H2 takes '\' as the escape character even without an ESCAPE clause, and the model does not. A '%' or '_' inside a filter acts as a wildcard, as it does in the query. The plain-search contracts of the filters therefore cover only filters with no '%', '_' or '\'.
- ServicoProduto.EspacoEmBranco: `StringUtils.hasText` is modelled with the ASCII white-space characters of `Character.isWhitespace` only.
- ServicoProduto.ListarProdutos: a null `direcao` (a NullPointerException) is not modelled, because the controller always supplies a default. A `sortBy` naming no entity property makes the query throw; that failure is not modelled, since `consulta` always answers with a page.
- CategoriaRepositorio.BuscarPorNome stands for both `buscarCategoriaPorNome` in CategoriaService and `buscarCategoria` in ProdutoMapper. Both throw ObjectNotFoundException with the same message.
