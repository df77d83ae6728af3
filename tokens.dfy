/** Token trees as `proc_macro2::TokenTree` hands them to the macro. */
module Tokens {

  datatype Delimiter = Parenthesis | Brace | Bracket | NoDelimiter

  datatype Token =
    | Group(delimiter: Delimiter, stream: seq<Token>)
    | Ident(name: string)
    | Punct(ch: char)
    | Literal(text: string)  // the text `Literal::to_string` gives, e.g. "1.678" or "150_000"
}
