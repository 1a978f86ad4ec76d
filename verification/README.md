# Codabar symbols and library numbers, in Dafny

This project models the core of a PHP barcode plugin:

- **Library numbers** (`CodabarNumber.php`) in the Ameritech layout:
  - a type digit (2 = patron, 3 = item);
  - the four-digit institution id 1310;
  - an eight-digit serial number, left-padded with zeros or drawn at random when none is given;
  - a mod-10 check digit. The digits at even 0-based positions are doubled, less 9 when the product has two digits.
- **The Codabar (NW-7) symbology** (`Codabar.php`):
  - the 24-entry table from characters to seven narrow/wide module widths;
  - the width stream `setData` appends to. That stream is the start sentinel, the upper-cased data and the stop sentinel, with a one-module gap after every character;
  - the integer and parity logic of `draw`: the module count, the scale, one rectangle per element, white at even positions;
  - the grouped human-readable text of `getPrintable`.

Modules:

| file | module | what it holds |
|---|---|---|
| `results.dfy` | `Results` | `Option` and `Result` |
| `php_strings.dfy` | `PhpStrings` | the PHP string primitives the code relies on: `strval` of a non-negative integer, `strtoupper` on ASCII, `trim` with its default character set, `substr` with non-negative arguments |
| `codabar_number.dfy` | `CodabarNumber` | serial padding, the checksum scan, construction, the accessors |
| `codabar.dfy` | `Codabar` | the table, the width stream, the drawing geometry, the printable text |

Each operation has a partner:

- the `foreach` of `calculateCheckDigit` (the method `CalculateCheckDigit`) is proved equal to a recursive reference total, `WeightedTotal`;
- the loops of `setData` (the methods `AppendWidths` and `AppendEncoding`) are proved equal to the recursive stream `EncodeLoose`. On table characters that stream is proved equal to the strict block-per-character encoder `EncodeChars`.

The PHP object itself is the class `Codabar.Barcode`. Its `SetData` changes the fields in place through those loop methods. Its contract ties the new state to the pure function `ApplySetData`. That contract speaks of `old` state, so the properties are stated on `ApplySetData`.

Inputs the PHP takes from elsewhere become parameters:

- `rand(100, 99999999)` becomes the draw `r`, with `100 <= r <= 99999999`;
- the canvas width and height (`$this->x`, `$this->y`) and the `humanText` flag become parameters. They live in the base class `BarcodeBase`, which is not part of this model;
- the font height `imagefontheight` returns becomes the parameter `fontHeight`.

A zero module count makes `$barWidth / $codeLength` a division by zero. `draw` then returns `Err(DivisionByZero)`.

## Model

| member | source | states |
|---|---|---|
| `PhpStrings.DecimalRoundTrip` | code/util/CodabarNumber.php:84-87 | the decimal text of the random draw reads back as the same number |
| `PhpStrings.DecimalLength` | code/util/CodabarNumber.php:87 | a number's decimal text has at most k digits exactly when the number is below 10^k, so a draw up to 99999999 never needs more than eight characters |
| `PhpStrings.UpperEffect` | code/Codabar.php:74 | after `strtoupper` no lower-case ASCII letter is left; each lower-case letter moves to its capital; every other character is kept |
| `PhpStrings.UpperIdempotent` | code/Codabar.php:74 | upper-casing twice is the same as once |
| `PhpStrings.TrimStartSkips` | code/Codabar.php:76 | a leading run of stripped characters does not change what `ltrim` keeps |
| `PhpStrings.TrimStrips` | code/Codabar.php:76 | what `trim` keeps is a contiguous infix; everything stripped on either side is space, tab, LF, CR, NUL or vertical tab; the result neither starts nor ends with one |
| `PhpStrings.TrimIdempotent` | code/Codabar.php:76 | trimming a trimmed string changes nothing |
| `PhpStrings.Substr` | code/Codabar.php:140-146 | `substr(s, start, len)` has length `min(len, strlen(s) - start)` and is empty when `start` is past the end; character k is `s[start + k]` |
| `CodabarNumber.LeftPad8` | code/util/CodabarNumber.php:87-97 | a serial of at most eight characters becomes exactly eight, ending with the serial and preceded only by '0'; a longer one is left unchanged |
| `CodabarNumber.LeftPad8Idempotent` | code/util/CodabarNumber.php:87-97 | padding an already padded serial changes nothing |
| `CodabarNumber.CheckSerialNumber` | code/util/CodabarNumber.php:81-98 | the falsy test, the `8 - strlen` count with its zero test, and the prefix loop together left-pad to eight characters; "" and "0" are first replaced by the draw |
| `CodabarNumber.RandomSerialIsEightDigits` | code/util/CodabarNumber.php:83-97 | any draw in the `rand` range is stored as exactly eight digits that end with the draw and denote the draw |
| `CodabarNumber.ZerosPrefixValue` | code/util/CodabarNumber.php:92-97 | the zeros of the prefix do not change the number the serial denotes |
| `CodabarNumber.SerialIsEightDigits` | code/util/CodabarNumber.php:81-98 | a digit serial of at most eight characters, or a draw, is stored as exactly eight digits |
| `CodabarNumber.DoubledInjective` | code/util/CodabarNumber.php:157-160 | doubling with the less-9 correction sends different digits to different digits, so it permutes 0..9 |
| `CodabarNumber.DoubledParity` | code/util/CodabarNumber.php:157-160 | digits 0-4 double to the even digits and 5-9 to the odd ones |
| `CodabarNumber.WeightInjective` | code/util/CodabarNumber.php:154-164 | at any position, two different digits contribute different amounts to the total |
| `CodabarNumber.CheckDigitFor` | code/util/CodabarNumber.php:167-169 | the check digit is below 10; it is 0 exactly when the total is a multiple of ten; it brings the total up to a multiple of ten |
| `CodabarNumber.CheckDigitUnique` | code/util/CodabarNumber.php:167-169 | the check digit is the only digit that brings the total to a multiple of ten |
| `CodabarNumber.CalculateCheckDigit` | code/util/CodabarNumber.php:150-170 | the `foreach` with its running total yields the check digit of the weighted total of the digits |
| `CodabarNumber.WeightedTotalUpdate` | code/util/CodabarNumber.php:154-165 | replacing the digit at one position shifts the total by exactly the difference of that position's two weights |
| `CodabarNumber.SingleDigitChangeDetected` | code/util/CodabarNumber.php:150-170 | changing any single digit of the scanned string changes the check digit |
| `CodabarNumber.WeightedTotalEvenSplit` | code/util/CodabarNumber.php:154-165 | after an even number of digits every later digit keeps its weight, so the totals of the two parts add up |
| `CodabarNumber.NewNumber` | code/util/CodabarNumber.php:69-73 | the constructor keeps the type digit and stores the padded (or drawn) digit serial; the stored check digit closes the 13 scanned digits to a multiple of ten |
| `CodabarNumber.Construct` | code/util/CodabarNumber.php:69-73 | on arbitrary strings, construction fails exactly when a scanned character is not a digit; otherwise it yields a valid number with the given type and the padded serial |
| `CodabarNumber.ScannedDigits` | code/util/CodabarNumber.php:151 | the 13 scanned characters are all digits exactly when the type and the given serial are |
| `CodabarNumber.LibraryIdDigits` | code/util/CodabarNumber.php:53 | the institution id prints as the four characters "1310" |
| `CodabarNumber.ClosedTotal` | code/util/CodabarNumber.php:167-169 | the check digit lands on an undoubled position after an odd number of digits, so the scan of the full code is a multiple of ten |
| `CodabarNumber.CodabarLayout` | code/util/CodabarNumber.php:104-106 | with a one-digit type and a digit serial of at most eight characters, `getCodabar` is 14 digits: type, "1310", eight-digit serial, then the check digit; the whole code scans to a multiple of ten |
| `CodabarNumber.ExampleSerial` | code/util/CodabarNumber.php:87-97 | the serial "10586" is stored as "00010586", whatever the draw |
| `CodabarNumber.ExamplePayloadTotal` | code/util/CodabarNumber.php:150-165 | the scan of "2" "1310" "00010586" totals 26 |
| `CodabarNumber.WorkedExample` | code/util/CodabarNumber.php:29-34 | type 2 with serial 10586 gives the code "21310000105864" |
| `CodabarNumber.GetCheckDigitAsWritten` | code/util/CodabarNumber.php:136-138 | the accessor as written has no `return`, so it yields null for every number |
| `CodabarNumber.GetCheckDigit` | code/util/CodabarNumber.php:132-138 | the accessor as documented returns the last digit of the code: below 10, and it closes the payload's total |
| `CodabarNumber.CheckDigitAccessorLosesDigit` | code/util/CodabarNumber.php:136-138 | the as-written accessor never yields the stored check digit |
| `Codabar.KeysAreTableKeys` | code/Codabar.php:36-61 | the characters with a table entry are exactly the digits, `- $ : / . * +` and `A B C D E N T` |
| `Codabar.PatternWellFormed` | code/Codabar.php:36-61 | every entry is seven widths of 1 or 2 summing to 9 for the digits, '-' and '$', and to 10 for the other characters |
| `Codabar.LowDigitPatterns` | code/Codabar.php:37-46 | the entries of '0' to '4' are well formed with width 9 |
| `Codabar.HighDigitPatterns` | code/Codabar.php:41-45 | the entries of '5' to '9' are well formed with width 9 |
| `Codabar.SymbolPatterns` | code/Codabar.php:47-53 | the entries of the seven symbols are well formed, width 9 for '-' and '$' and 10 for the others |
| `Codabar.LetterPatterns` | code/Codabar.php:54-60 | the entries of the seven letters are well formed with width 10 |
| `Codabar.AliasesSharePatterns` | code/Codabar.php:52-60 | T shares A's pattern, N shares B's, '*' shares C's, and E shares D's |
| `Codabar.Framed` | code/Codabar.php:77 | the characters encoded are the start sentinel, the data, then the stop sentinel: two more than the data, the sentinels at the ends and the data unchanged between them |
| `Codabar.Block` | code/Codabar.php:79-84 | one character contributes eight elements, the last being the gap |
| `Codabar.BlockShape` | code/Codabar.php:79-84 | a character's elements are widths of 1 or 2 spanning 10 modules for the narrow symbols and 11 for the others |
| `Codabar.EncodeCharsShape` | code/Codabar.php:79-84 | every element of the stream is 1 or 2, and every element at offset 7 of its block is the gap |
| `Codabar.EncodeCharsAppend` | code/Codabar.php:79-84 | encoding distributes over concatenation |
| `Codabar.EncodeCharsBlock` | code/Codabar.php:79-84 | elements 8k to 8k+7 of the stream are exactly the pattern and gap of character k |
| `Codabar.Encode` | code/Codabar.php:77-84 | the symbol of n data characters has 8(n+2) elements, starting with the start sentinel's block and ending with the stop sentinel's |
| `Codabar.EncodeShape` | code/Codabar.php:77-84 | the symbol holds widths 1 and 2 only, with a gap closing every eighth element |
| `Codabar.EncodeDataBlock` | code/Codabar.php:77-84 | block k+1 of the symbol is the block of data character k |
| `Codabar.LookupWidths` | code/Codabar.php:80 | looking a character up yields at most seven widths, each 1 or 2 |
| `Codabar.EncodeLooseShape` | code/Codabar.php:79-84 | each character, mapped or not, adds between one and eight elements, each 1 or 2 |
| `Codabar.EncodeLooseAgrees` | code/Codabar.php:79-84 | on table characters the loop as written produces exactly the strict block encoding |
| `Codabar.EncodeLooseAppend` | code/Codabar.php:79-84 | the loop's output for a concatenation is the concatenation of its outputs |
| `Codabar.AppendWidths` | code/Codabar.php:80-82 | the inner loop appends the pattern's widths in order after what was there |
| `Codabar.AppendEncoding` | code/Codabar.php:79-84 | the nested loops append, after the existing stream, each character's widths followed by the gap |
| `Codabar.ApplySetData` | code/Codabar.php:73-85 | `setData` stores the trimmed upper-cased data as the code and keeps the sentinels |
| `Codabar.SetDataEncodesUntrimmed` | code/Codabar.php:74-77 | whitespace in front of the data leaves the stored code unchanged, but the stream is built from the untrimmed string: one gap per stripped character sits right after the start sentinel's elements, and the rest is the stream of the data and the stop sentinel |
| `Codabar.EncodeLooseUnmapped` | code/Codabar.php:79-84 | a run of characters with no table entry adds exactly one gap per character |
| `Codabar.SetDataAppendsSymbol` | code/Codabar.php:73-85 | `setData` only appends: the old stream stays a prefix; at least one element per framed character follows; for table characters what follows is exactly the framed symbol of the untrimmed data |
| `Codabar.SetDataKeepsWellFormed` | code/Codabar.php:79-84 | `setData` keeps every element of the stream a width of 1 or 2 |
| `Codabar.SetDataAccumulates` | code/Codabar.php:73-85 | the stream is never reset: two calls leave both symbols in order, while the code is the second data only |
| `Codabar.CodeLengthBounds` | code/Codabar.php:100-103 | the module count of a string of table characters is between 10 and 11 per character |
| `Codabar.LooseCodeLengthAtLeast` | code/Codabar.php:100-103 | every character, mapped or not, adds at least one module, its gap |
| `Codabar.CodeLengthPositiveAfterSetData` | code/Codabar.php:100-107 | after any `setData` the module count is at least the data length plus two |
| `Codabar.CodeLengthAfterFirstSetData` | code/Codabar.php:100-103 | after one `setData` of table characters on a fresh barcode, the module count is 10 to 11 per symbol |
| `Codabar.GapsWhiteBarsBlack` | code/Codabar.php:117-122 | in a drawn symbol every gap falls on an even position and so is white; every position 1 mod 8 holds the first width of that character's pattern and is black |
| `Codabar.BlockStartsWithPattern` | code/Codabar.php:77-84 | element 8k of the symbol is the first width of the pattern of framed character k |
| `Codabar.UnmappedCharFlipsColours` | code/Codabar.php:79-84 | a character with no table entry adds one element instead of eight: for a one-character datum such as "#" the stream has 17 elements, the stop pattern sits at elements 10 to 16, and `draw` fills its first bar white |
| `Codabar.ScaleAllAt` | code/Codabar.php:118 | each element's pixel width is its module width times the scale |
| `Codabar.ScaledSum` | code/Codabar.php:100-107 | the scaled widths add up to the module count times the scale |
| `Codabar.BarsShape` | code/Codabar.php:115-122 | rectangle k has the colour of position pos+k and the element's width; it starts where rectangle k-1 ends; the first starts at x1 |
| `Codabar.BarsRightEdge` | code/Codabar.php:115-122 | the last rectangle ends at the start plus the sum of the widths |
| `Codabar.ScaleFills` | code/Codabar.php:105-107 | all modules together span exactly the width between the margins |
| `Codabar.DrawBars` | code/Codabar.php:100-122 | the rectangle loop fails exactly when the module count is zero; otherwise it draws one rectangle per element |
| `Codabar.DrawBarsColours` | code/Codabar.php:115-122 | drawn rectangles alternate black and white, starting black at position 1; they reach down to the bottom, are contiguous, and start at the left margin |
| `Codabar.DrawBarsWidths` | code/Codabar.php:118 | each drawn rectangle is its element's width times the scale |
| `Codabar.DrawBarsFill` | code/Codabar.php:105-122 | the last rectangle ends exactly at the right margin |
| `Codabar.Draw` | code/Codabar.php:91-127 | `draw` fails exactly on a zero module count; its bars stop above the text band; it has a caption, the grouped code, exactly when human text is on |
| `Codabar.DrawAfterSetDataSucceeds` | code/Codabar.php:100-107 | drawing after a `setData` never divides by zero |
| `Codabar.Printable` | code/Codabar.php:139-148 | the text is the code's first 15 characters plus three separators |
| `Codabar.PrintableLayout` | code/Codabar.php:139-148 | the three separators are spaces, and character i of the code sits after one separator per group boundary it passed |
| `Codabar.PrintableUngroups` | code/Codabar.php:139-148 | deleting the three separators gives back the first 15 characters of the code |
| `Codabar.PrintableFourteen` | code/Codabar.php:139-148 | a 14-character library number prints as type, space, institution, space, five serial digits, space, three serial digits and the check digit |

## Left out

- Image output: the GD calls (`imagecreate`, colour allocation, `imagefill`, `imagestring`) and text centring are not modelled. The font height is a parameter. `drawCode`'s horizontal position depends on the font width.
- The class `BarcodeBase`, which holds the canvas size and the human-text flag, is not part of this model.
- `rand` itself: the draw is a parameter in its documented range.
- `DrawBars`: coordinates are exact reals. PHP computes them in floating point, and GD truncates them to whole pixels.
- `DrawBars`: for a zero module count, PHP 8 raises `DivisionByZeroError`. PHP 7 emits a "Division by zero" warning and makes the scale a float, INF or NAN. The count is zero only when the stream is empty, so under PHP 7 the bar loop draws nothing and `draw` finishes with no bars, and with the caption when human text is on. The model returns `Err(DivisionByZero)` in both cases.
- `Construct`: the model follows PHP 8, where arithmetic on a non-numeric character raises a TypeError. PHP 7 only warns and counts that character as 0.
- `ApplySetData`: PHP stores the gap as the string "1", and `$codeLength += $b` converts it back to 1. The model stores the integer 1.
- `PhpStrings.Upper`: only ASCII letters are upper-cased. The locale-dependent and multibyte behaviour of older PHP versions is not modelled.
- Serial numbers longer than eight characters are returned unchanged, as the code does. There is no "too long" error.
- Characters with no table entry add only the gap, as the code does. There is no "unsupported character" error. `UnmappedCharFlipsColours` states what this does to the colours of the later bars.
- `PhpStrings`, `EncodeLoose`, `Printable`: one Dafny character stands for one byte. PHP strings are byte strings, and `str_split`, `strlen`, `substr` and `trim` work on bytes. Non-ASCII input, which PHP splits into several bytes, is not modelled. For example, PHP gives "é" two gaps, where the model gives one.
- `getPrintable` groups any code this way, not only 14-character numbers, as the code does.
- The class method `Codabar.Barcode.SetData` has no row in the table above. Its contract relates the new fields to the old ones, and the same facts are stated on `ApplySetData`.
- The getters `getDigit1`, `getLibraryID` and `getSerialNumber` are field reads, `GetDigit1`, `GetLibraryId` and `GetSerialNumber`. Nothing is stated about them beyond `CodabarLayout`.

## Findings

| source | as written | input that shows it | evidently intended | confidence | as-written member | corrected member |
|---|---|---|---|---|---|---|
| code/util/CodabarNumber.php:136-138 | `getCheckDigit` evaluates `$this->checkDigit` but has no `return`, so it yields null | any constructed number, e.g. type 2 and serial 10586, whose check digit is 4 | return the stored check digit, the 14th digit of the code | not executed | `CodabarNumber.GetCheckDigitAsWritten`, `CodabarNumber.CheckDigitAccessorLosesDigit` | `CodabarNumber.GetCheckDigit` |
