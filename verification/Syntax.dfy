/** What the macros are given: token trees and parsed types. */
module Syntax {
  import opened Wrappers
  import opened Sequences

  datatype Delimiter = Parenthesis | Bracket | Brace | NoDelimiter

  /** `strValue` is the string a literal stands for, if it is a string literal. */
  datatype TokenTree =
    | Ident(name: string)
    | Punct(ch: char)
    | Literal(text: string, strValue: Option<string>)
    | Group(delimiter: Delimiter, inner: Tokens)

  type Tokens = seq<TokenTree>

  const COMMA: TokenTree := Punct(',')

  /** A parsed type. `id` is the type it names once names are resolved, `tokens` is what it prints as. */
  datatype Type =
    | PathType(segments: seq<Segment>, id: nat, tokens: Tokens)
    | TraitObjectType(id: nat, tokens: Tokens)
    | OtherType(id: nat, tokens: Tokens)

  datatype Segment = Segment(ident: string, args: Args)
  datatype Args = NoArgs | AngleBracketed(args: seq<GenericArg>) | Parenthesized
  datatype GenericArg = TypeArg(ty: Type) | OtherArg

  function LastSegment(ty: Type): Option<Segment> {
    if ty.PathType? && |ty.segments| > 0 then Some(Last(ty.segments)) else None
  }

  /** `ty` is written as a path whose last segment is `wrapper<inner, ..>`. */
  ghost predicate HasFirstArg(ty: Type, wrapper: string, inner: Type) {
    && ty.PathType? && |ty.segments| > 0
    && var last := ty.segments[|ty.segments| - 1];
       && last.ident == wrapper && last.args.AngleBracketed?
       && |last.args.args| > 0 && last.args.args[0] == TypeArg(inner)
  }

  /** `ty` is written as a path whose last segment is `wrapper<inner>`. */
  ghost predicate HasOnlyArg(ty: Type, wrapper: string, inner: Type) {
    ty.PathType? && |ty.segments| > 0 &&
    ty.segments[|ty.segments| - 1] == Segment(wrapper, AngleBracketed([TypeArg(inner)]))
  }

  /** `T` if the type is `wrapper<T, ..>`, by the last path segment. */
  function FirstTypeArg(ty: Type, wrapper: string): Option<Type> {
    match LastSegment(ty)
    case None => None
    case Some(segment) =>
      if segment.ident == wrapper && segment.args.AngleBracketed? && |segment.args.args| > 0
         && segment.args.args[0].TypeArg?
      then Some(segment.args.args[0].ty)
      else None
  }

  lemma FirstTypeArgIs(ty: Type, wrapper: string)
    ensures forall inner :: HasFirstArg(ty, wrapper, inner) <==> FirstTypeArg(ty, wrapper) == Some(inner)
  {
  }
}
