# go-tmsh field-fmt decoder: scanner and tree-to-value decoder

This project models two stages of the decoder for the F5 tmsh "field-fmt" text format, which looks like `ltm node <name> { key value ... }`:

- **The scanner.** It turns the text into tokens: whitespace runs, identifiers, the reserved word `ltm`, newlines, braces, end of input and illegal characters. It also counts lines.
- **The decoder.** It walks the parser's syntax tree and fills a caller's destination record, selecting fields by their `ltm:"..."` tags.

The model has six modules:

- `Lex` (lex.dfy) covers `lex.go`.
  - `ScanAt(s, pos)` is a pure function. It states what one call of `Scan` returns and where it leaves the reader.
  - The class `Lex.Scanner` holds the reader state of a `strings.Reader`: the offset `i` and `prevRune`, the offset of the last rune read or -1. It also holds the line counter `line`.
  - Its methods `Read`, `Unread`, `Scan`, `ScanWhitespace` and `ScanIdent` follow the Go code step by step. `Read` and `Unread` are proved against the reader semantics of `ReadRune` and `UnreadRune`. `Scan` and `ScanIdent` are proved to agree with `ScanAt`, and `ScanWhitespace` with `RunStep`, the whitespace branch of `ScanAt`.
  - `Tokens(s, pos)` is the token sequence that repeated calls of `Scan` return before the first EOF.
- `Dest` (dest.dfy) replaces Go's reflection.
  - A `Value` is a string, an int, an opaque value (`VOther`), a record, a list or a string-keyed map.
  - A record's fields carry their tags in declaration order. An untagged field has the tag `""`.
  - Lists and maps carry their element `Type`. `Zero(t)` gives the zero value of a type, standing in for `reflect.New(t).Elem()`.
  - Go's `reflect.Int` is `TInt`. Every other scalar kind (bool, float, the sized ints) is `TOther`, which the decoder never writes, just as `decodeScalarNode` only handles `reflect.Int` and `reflect.String`.
- `IntParse` (intparse.dfy) is the value of `strconv.ParseInt(s, 10, 64)` with the error discarded:
  - a syntax error gives 0;
  - an out-of-range value saturates at the 64-bit bounds.
- `Decode` (decode.dfy) covers `decode.go`.
  - The syntax tree `Node` has the four kinds `LtmNode`, `StructNode`, `KeyNode` and `ScalarNode`. Each node has a `value`, a `component` and its `children`.
  - Each Go function becomes a function that returns the updated destination. Go's `unmarshal` is `UnmarshalNode`.
  - Each loop over fields or children that drives the recursive walk is a recursive function over the index: `FillEmbedded`, `DecodeChildren` and `MapEntries` thread the destination or the map being built from child to child, and `SliceItems` builds the list element by element.
  - The field search of `lookupField` is the function `LookupField`. The method `FindField` runs it as the Go loop does and is proved to return the same field.
  - Every function of the recursive group is proved never to change the destination's type. This covers the field tags and the element types, and every int stays within 64 bits.
- `DecodeProperties` (decode_props.dfy) holds the lemmas about the decoder.
- `Wrappers` (wrappers.dfy) holds the `Option` datatype used for absent results.

Three behaviours of the code that are easy to misread:

- An int field that receives an unparsable scalar is overwritten with 0, even when an earlier key had set it (decode.go:113-114).
- An untagged field has the tag `""`, so it would be selected by an empty key. The scanner never produces an empty identifier, so this cannot happen in practice.
- Inside a whitespace or identifier run, a NUL character ends the token and is consumed without being pushed back (lex.go:73-74, lex.go:91-92). At the start of a token, a NUL gives EOF and is consumed too. Only a NUL-free input is therefore given back whole by concatenating the literals.

## Model

| member | source | states |
|---|---|---|
| Lex.UnderscoreIsLetter | lex.go:93 | the extra `ch != '_'` test in the identifier loop adds nothing, `_` already being a letter |
| Lex.IsWhitespace | lex.go:17-19 | blank and tab; a whitespace character is never a letter, a digit, a newline or NUL, so Scan's tests cannot overlap |
| Lex.IsLetter | lex.go:21-26 | ASCII letters plus . , _ - : ; / ' ( ) @ " *; a letter is never a digit, a newline, a brace or NUL |
| Lex.IsDigit | lex.go:28-30 | '0' to '9'; a digit is never a newline, a brace or NUL |
| Lex.RunLength | lex.go:72-81 | a run has class characters only, stays inside the input, and stops at end of input or at the first character outside the class (maximal) |
| Lex.RunStep | lex.go:68-99 | a run token's literal is non-empty, lies at the cursor in the input, holds only class characters and is maximal; the cursor ends right after it, or one further when the stopping character is a NUL |
| Lex.ScanAt | lex.go:42-107 | EOF exactly at end of input or at a NUL, with an empty literal, the offset unchanged at the end and one further at a NUL; every other token has a non-empty literal read at the cursor, and the cursor strictly advances |
| Lex.Tokens | lex.go:42-107 | the tokens returned before EOF are never EOF and never have an empty literal |
| Lex.WhitespaceToken | lex.go:68-84 | a token that starts with a blank or tab is WS, and its literal is the maximal non-empty run of blanks and tabs at the cursor |
| Lex.IdentToken | lex.go:86-106 | a token that starts with a letter or digit is the maximal run of letters and digits; its kind is LTM exactly when the literal is "ltm", and IDENT otherwise |
| Lex.LtmPrefixIsIdent | lex.go:101-106 | "ltmx" scans as IDENT and "ltm" as LTM |
| Lex.SingleCharToken | lex.go:53-65 | '\n', '{' and '}' give NEWLINE, L_BRACE and R_BRACE, and any other unclassified character gives ILLEGAL; each has a one-character literal and advances the cursor by one |
| Lex.NothingLost | lex.go:42-107 | concatenating the literals of all tokens up to EOF gives back a NUL-free input |
| Lex.LinesCounted | lex.go:56-58 | the number of NEWLINE tokens up to EOF equals the number of newline characters in a NUL-free input |
| Lex.Scanner.constructor | lex.go:13-15 | a new scanner reads its data from offset 0, with no rune to push back and line 0 |
| Lex.Scanner.Read | lex.go:32-38 | returns the character at the offset and advances by one, or returns NUL at end of input without moving |
| Lex.Scanner.Unread | lex.go:40 | moves back to the last rune read when the last operation was a successful read, and does nothing otherwise |
| Lex.Scanner.Scan | lex.go:42-66 | the token and the new offset are those of ScanAt at the old offset; `line` grows by one for NEWLINE and is unchanged for every other token |
| Lex.Scanner.ScanWhitespace | lex.go:68-84 | its loop returns the RunStep whitespace token and leaves the reader where RunStep says |
| Lex.Scanner.ScanIdent | lex.go:86-107 | its loop returns the ScanAt identifier or LTM token and leaves the reader where ScanAt says |
| IntParse.DigitPrefix | decode.go:113 | the longest prefix of digits: all digits, followed by end of text or a non-digit |
| IntParse.ParseUint | decode.go:113 | the unsigned digit parse under the sign: any value it gives fits in 64 unsigned bits |
| IntParse.ParseInt | decode.go:113 | the parsed value always fits in 64 bits |
| IntParse.ParseFormat | decode.go:113 | parsing the decimal form of any 64-bit integer gives that integer back |
| IntParse.NotDecimalIsZero | decode.go:113-114 | "36.2K", "", "-" and "none" parse as 0 |
| IntParse.SyntaxErrorIsZero | decode.go:113 | every syntax error parses as 0: after an optional sign the text is empty or holds a non-digit, and the digits before it do not already overflow |
| IntParse.Saturates | decode.go:113 | decimals above the int64 range give its maximum, and below it its minimum |
| Dest.Zero | decode.go:79 | the zero value of a type has that type and is well typed |
| Decode.Unmarshal | decode.go:11-27 | if the parser fails on the trimmed and scanned text, the result is the error "Parse error" and the destination is untouched; otherwise there is no error and the destination keeps its type |
| Decode.TrimStart | decode.go:12 | the index of the first kept character: everything skipped is a newline, and the character there, if any, is not one |
| Decode.TrimEnd | decode.go:12 | the end of the kept text: everything dropped after it is a newline, and the last kept character, if any, is not one |
| Decode.TrimNewlines | decode.go:12 | the trimmed text is no longer than the input and neither starts nor ends with a newline |
| DecodeProperties.TrimNewlinesSpec | decode.go:12 | whenever the first a and last b characters are newlines and the text between is empty or has no newline at either end, the trimmed text is exactly that text between: only leading and trailing newlines are removed |
| DecodeProperties.TrimFramed | decode.go:12 | text framed by newlines that neither starts nor ends with a newline is exactly what trimming leaves |
| DecodeProperties.TrimIdempotent | decode.go:12 | trimming twice gives the same text as trimming once |
| DecodeProperties.TrimExample | decode.go:12 | blank lines around a document are removed and its inner newline is kept |
| Decode.LookupField | decode.go:120-129 | returns the first field, in declaration order, whose tag equals the given text, and returns no field exactly when no tag equals it |
| Decode.FindField | decode.go:120-129 | the loop over the fields returns exactly the field LookupField specifies: the first with the tag, or none |
| DecodeProperties.LookupSameTags | decode.go:120-129 | which field a lookup selects depends on the tags alone |
| DecodeProperties.DottedKeyIsOpaque | decode.go:124 | "status.status-reason" selects the field with exactly that tag, never a field tagged "status" |
| Decode.UnmarshalNode | decode.go:29-65 | decoding any node never changes the destination's type (kinds, tags, element types) and keeps it well typed |
| Decode.DecodeEntityNode | decode.go:31-55 | an entity fills a record without changing its type |
| Decode.FillFromBody | decode.go:31-41 | the two passes of the body leave a record of the same type |
| Decode.FillEmbedded | decode.go:33-38 | the first pass keeps the record's type |
| Decode.SetIfEmpty | decode.go:43-55 | setting the name or component slot keeps the record's type |
| Decode.DecodeStructNode | decode.go:67-97 | a block keeps the destination's type |
| Decode.DecodeChildren | decode.go:72-74 | decoding the children in order keeps the destination's type |
| Decode.SliceItems | decode.go:75-84 | one element per child, each of the list's element type |
| Decode.MapEntries | decode.go:85-95 | every entry is of the map's element type |
| Decode.DecodeKeyNode | decode.go:99-108 | a key keeps the destination's type |
| Decode.DecodeScalarNode | decode.go:110-118 | a scalar keeps the destination's kind, and an int stays within 64 bits |
| DecodeProperties.KeyNodeSelectsFirstMatch | decode.go:99-108 | a key decoded into a record changes only the first field tagged with the key text, and only when the key has a value; that field becomes the value decoded into it; a bare key, an unmatched key, or a destination that is not a record changes nothing |
| DecodeProperties.BareKeyLeavesDefault | decode_test.go:264 | the bare key `status.status-reason` leaves the record unchanged |
| DecodeProperties.LastKeyWins | decode.go:71-74 | in a flat block decoded into a record, a string or int field ends with the value of the last key that selects it, and keeps its value when no key with a value selects it |
| DecodeProperties.FlatStringField | decode.go:115-116 | a string field selected by a key of a flat body holds that key's raw text verbatim, when no later key selects it |
| DecodeProperties.StructLocal | decode.go:67-108 | decoding a node into a record settles each field from that field's own value and the tags alone |
| DecodeProperties.KeysMissField | decode.go:99-108 | keys that never select a field leave it as it was |
| DecodeProperties.FillEmbeddedSpec | decode.go:33-38 | the first pass decodes the body into each record-kind field and leaves every other field as it was |
| DecodeProperties.EmbeddedFromBody | decode.go:31-41 | an embedded record field that no body key selects ends as the body decoded into it (base record plus extension fields) |
| DecodeProperties.OwnFieldsFromBody | decode.go:40-41 | every field that is not a record ends as decoding the body into the destination itself leaves it |
| DecodeProperties.EntityNameFallback | decode.go:43-55 | the first direct field tagged "name" receives the entity name, and the one tagged "component" the component, exactly when it is a string field still holding "" after the body; a non-empty value is never overwritten and no other field changes |
| DecodeProperties.ComponentFromEntityLine | decode_test.go:355-357 | an empty body with entity name "wildcard.example.com_20191031-1" and component "profile-client-ssl" fills the name and component slots with them |
| DecodeProperties.SliceBlock | decode.go:75-84 | a block decoded into a list replaces it with one element per child, in order; element k is a fresh zero element filled from child k's children |
| DecodeProperties.ChildrenOnly | decode.go:80-82 | decoding a node's children depends on those children only, not on the node's own text |
| DecodeProperties.SliceIgnoresNames | decode.go:78-84 | the children's own names are never written into a list, and the old list contents do not matter |
| DecodeProperties.MapBlock | decode.go:85-95 | a block decoded into a map replaces it: the keys are exactly the children's texts, each entry is a fresh zero element filled from the last child with that text, and there are at most as many entries as children |
| DecodeProperties.BlockIntoScalarIsNoOp | decode.go:70-96 | a block decoded into a string, int or opaque destination does nothing |
| DecodeProperties.ScalarIntoField | decode.go:110-118 | a scalar decoded into a string field copies its text verbatim; the decimal form of a 64-bit integer decoded into an int field stores that integer |
| DecodeProperties.UnparsableIntIsZero | decode.go:112-114 | the scalar "36.2K" decoded into an int field stores 0, whatever the field held before |
| DecodeProperties.SyntaxErrorIntoInt | decode.go:112-114 | any scalar that strconv.ParseInt rejects as a syntax error overwrites an int field with 0, whatever the field held |
| DecodeProperties.ScalarIntoOtherKind | decode.go:110-118 | a scalar decoded into anything but a string or an int field leaves it unchanged |
| DecodeProperties.ParseFailureLeavesDestination | decode.go:15-17 | when the parser fails, Unmarshal returns "Parse error" and the unchanged destination |

## Left out

- The parser is not part of this model. This covers `yyParse`, the goyacc grammar, the `Lexer` wrapper with its `result`, and the definition of `node`. `Unmarshal` takes the parser as a function from the scanner's token sequence to an optional tree. The hyphen-joining of component words happens in the parser, so only its decoded effect is modelled (`ComponentFromEntityLine`).
- Go's `reflect` package is replaced by the `Dest` datatypes. Its panics become the precondition `Decodable`:
  - an entity node decoded into a non-record (`NumField`, decode.go:33);
  - an entity node without a body (`children[0]`);
  - an entity node anywhere below the root. The grammar builds entity nodes only at the root.
- The "Unknown node kind" panic (decode.go:63) cannot arise, because `NodeKind` has exactly the four kinds.
- The destination is the value that `out` points to. A non-pointer or nil `out` is not modelled (decode.go:19-22); For a nil pointer, `out` stays a pointer value and Go panics at `out.NumField()` (decode.go:33) before anything is written.
- Go's reflection panics on unexported or unassignable fields. Every field is assumed settable.
- Struct tags are given as the tag text itself. How `Tag.Get("ltm")` parses a raw tag is not modelled.
- Go distinguishes a nil slice or map from an empty one, and `reflect.DeepEqual` tells them apart. This model does not: a zero list or map is the empty one.
- Maps are keyed by string only. Any other key type makes `SetMapIndex` panic in Go.
- The input is a sequence of characters with one rune per character. The UTF-8 decoding of `strings.Reader.ReadRune`, including U+FFFD for invalid bytes, is not modelled.
- The record types `Node`, `Pool`, `PoolMember`, `VirtualServer` and `ClientSSLProfile` are not part of this model. Small illustrative records stand for them in the lemmas.
- Determinism (decoding the same input twice gives the same result) needs no lemma. Every operation of the decoder is a function.
