/**
 * `/upload`: importing the rows of an attached spreadsheet, one
 * `saveCategory` per named row, stopping at the first failure.
 */
module Upload {
  import opened Wrappers
  import opened Categories
  import opened Repository
  import opened Service
  import opened Bot

  /** One spreadsheet row: the first two cells, each possibly missing. */
  datatype UploadRow = UploadRow(name: Option<string>, parent: Option<string>)

  /** The answer of the argument overload. */
  const ArgsText := "Команда /upload должна быть вызвана с прикрепленным Excel-документом."

  /** The answer when every row was handled. */
  const SuccessText := "Файл " + "успешно обработан и данные сохранены в базе."

  /** The answer when the update carries no document. */
  const AttachText := "Пожалуйста, прикрепите Excel-документ с деревом категорий."

  /** The answer when reading the file or saving a row failed with `message`. */
  function ErrorText(message: string): string
  {
    "Ошибка при обработке файла: " + message
  }

  /** A row whose first cell is missing or empty is skipped. */
  predicate Skipped(row: UploadRow)
  {
    row.name.None? || row.name.value == ""
  }

  /**
   * The import of `rows` into `s`: the store afterwards, and the message of
   * the first failing row, if any. Rows after a failure are not looked at.
   */
  function Import(s: Store, rows: seq<UploadRow>): (r: (Store, Option<string>))
    requires Valid(s)
    ensures Valid(r.0)
    ensures r.1.Some? ==> r.1.value == NoValueMessage
    decreases |rows|
  {
    if rows == [] then (s, None)
    else if Skipped(rows[0]) then Import(s, rows[1..])
    else
      match SaveCategoryOp(s, rows[0].name.value, rows[0].parent)
      case Err(message) => (s, Some(message))
      case Ok(after) => Import(after, rows[1..])
  }

  /** The rows that are not skipped. */
  function Kept(rows: seq<UploadRow>): (r: seq<UploadRow>)
    ensures |r| <= |rows|
    ensures forall i | 0 <= i < |r| :: !Skipped(r[i])
    ensures forall x :: multiset(r)[x] == if Skipped(x) then 0 else multiset(rows)[x]
  {
    if rows == [] then []
    else
      assert rows == [rows[0]] + rows[1..];
      if Skipped(rows[0]) then Kept(rows[1..])
      else [rows[0]] + Kept(rows[1..])
  }

  /** Skipped rows have no effect: importing all rows is importing the kept ones. */
  lemma {:induction false} ImportIgnoresSkipped(s: Store, rows: seq<UploadRow>)
    requires Valid(s)
    ensures Import(s, rows) == Import(s, Kept(rows))
    decreases |rows|
  {
    if rows != [] {
      if Skipped(rows[0]) {
        ImportIgnoresSkipped(s, rows[1..]);
      } else {
        var kept := [rows[0]] + Kept(rows[1..]);
        assert kept[0] == rows[0] && kept[1..] == Kept(rows[1..]);
        match SaveCategoryOp(s, rows[0].name.value, rows[0].parent)
        case Err(_) =>
        case Ok(after) =>
          ImportIgnoresSkipped(after, rows[1..]);
      }
    }
  }

  /**
   * Importing `a + b` imports `a` and, when that did not fail, continues with
   * `b` from the store `a` left; after a failure in `a`, `b` is not looked at.
   */
  lemma {:induction false} ImportAppend(s: Store, a: seq<UploadRow>, b: seq<UploadRow>)
    requires Valid(s)
    ensures Import(s, a + b)
         == if Import(s, a).1.None? then Import(Import(s, a).0, b) else Import(s, a)
    decreases |a|
  {
    if a == [] {
      assert a + b == b;
    } else {
      assert (a + b)[0] == a[0] && (a + b)[1..] == a[1..] + b;
      if Skipped(a[0]) {
        ImportAppend(s, a[1..], b);
      } else {
        match SaveCategoryOp(s, a[0].name.value, a[0].parent)
        case Err(_) =>
        case Ok(after) =>
          ImportAppend(after, a[1..], b);
      }
    }
  }

  /**
   * A successful import creates exactly one category per kept row and keeps
   * every category that was there before.
   */
  lemma {:induction false} ImportCreatesOnePerRow(s: Store, rows: seq<UploadRow>)
    requires Valid(s)
    requires Import(s, rows).1.None?
    ensures |Import(s, rows).0.cats| == |s.cats| + |Kept(rows)|
    ensures Import(s, rows).0.nextId == s.nextId + |Kept(rows)|
    ensures forall k | k in s.cats :: k in Import(s, rows).0.cats && Import(s, rows).0.cats[k] == s.cats[k]
    decreases |rows|
  {
    if rows != [] {
      if Skipped(rows[0]) {
        ImportCreatesOnePerRow(s, rows[1..]);
      } else {
        var after := SaveCategoryOp(s, rows[0].name.value, rows[0].parent).value;
        SaveCategoryGrows(s, rows[0].name.value, rows[0].parent);
        ImportCreatesOnePerRow(after, rows[1..]);
      }
    }
  }

  /** A failed import leaves every earlier category as it was: nothing is rolled back or lost. */
  lemma {:induction false} ImportKeepsEarlier(s: Store, rows: seq<UploadRow>)
    requires Valid(s)
    ensures forall k | k in s.cats :: k in Import(s, rows).0.cats && Import(s, rows).0.cats[k] == s.cats[k]
    ensures Import(s, rows).0.nextId >= s.nextId
    decreases |rows|
  {
    if rows != [] {
      if Skipped(rows[0]) {
        ImportKeepsEarlier(s, rows[1..]);
      } else {
        match SaveCategoryOp(s, rows[0].name.value, rows[0].parent)
        case Err(_) =>
        case Ok(after) =>
          SaveCategoryGrows(s, rows[0].name.value, rows[0].parent);
          ImportKeepsEarlier(after, rows[1..]);
      }
    }
  }

  /**
   * The import of `rows` failed at the kept row `i`: every row before it was
   * handled without failure, `saveCategory` failed on row `i` in the store
   * they left, and that store is the result.
   */
  predicate FailsAt(s: Store, rows: seq<UploadRow>, i: nat)
    requires Valid(s)
  {
    && i < |rows|
    && !Skipped(rows[i])
    && Import(s, rows[..i]).1.None?
    && SaveCategoryOp(Import(s, rows[..i]).0, rows[i].name.value, rows[i].parent).Err?
    && Import(s, rows).0 == Import(s, rows[..i]).0
  }

  /** A failure at row `j` of the rest, after row 0 moved the store to `next`, is a failure at row `j + 1`. */
  lemma FailsAtShift(s: Store, next: Store, rows: seq<UploadRow>, j: nat)
    requires Valid(s) && Valid(next) && rows != []
    requires || (Skipped(rows[0]) && next == s)
             || (!Skipped(rows[0]) && SaveCategoryOp(s, rows[0].name.value, rows[0].parent) == Ok(next))
    requires FailsAt(next, rows[1..], j)
    ensures FailsAt(s, rows, j + 1)
  {
    var front := rows[..j + 1];
    assert front[0] == rows[0] && front[1..] == rows[1..][..j];
    assert rows[1..][j] == rows[j + 1];
  }

  /** A failed import failed at some kept row. */
  lemma {:induction false} ImportFailsAtFirst(s: Store, rows: seq<UploadRow>)
    requires Valid(s)
    requires Import(s, rows).1.Some?
    ensures exists i | 0 <= i < |rows| :: FailsAt(s, rows, i)
    decreases |rows|
  {
    if Skipped(rows[0]) {
      ImportFailsAtFirst(s, rows[1..]);
      var j :| 0 <= j < |rows| - 1 && FailsAt(s, rows[1..], j);
      FailsAtShift(s, s, rows, j);
    } else {
      match SaveCategoryOp(s, rows[0].name.value, rows[0].parent)
      case Err(_) =>
        assert rows[..0] == [];
        assert FailsAt(s, rows, 0);
      case Ok(after) =>
        ImportFailsAtFirst(after, rows[1..]);
        var j :| 0 <= j < |rows| - 1 && FailsAt(after, rows[1..], j);
        FailsAtShift(s, after, rows, j);
    }
  }

  /** The sheet rows as the import reads them: both cells present. */
  function AsUploadRows(rows: seq<SheetRow>): (r: seq<UploadRow>)
    ensures |r| == |rows|
    ensures forall i | 0 <= i < |rows| :: r[i] == UploadRow(Some(rows[i].name), Some(rows[i].parentName))
  {
    seq(|rows|, i requires 0 <= i < |rows| => UploadRow(Some(rows[i].name), Some(rows[i].parentName)))
  }

  /**
   * Export and import are not inverses: the import reads the header row as
   * data, so unless some category is named "Parent Name", importing an
   * exported sheet fails on its very first row and changes nothing.
   */
  lemma ExportedSheetFailsOnHeader(s: Store, trees: seq<Tree>)
    requires Valid(s)
    requires forall k | k in s.cats :: s.cats[k].name != Header.parentName
    ensures Import(s, AsUploadRows(ExportTable(trees))) == (s, Some(NoValueMessage))
  {
    ExportSize(trees);
    HeaderRowFails(s, AsUploadRows(ExportTable(trees)));
  }

  /** A first row that names "Parent Name" as parent fails when no category has that name. */
  lemma HeaderRowFails(s: Store, rows: seq<UploadRow>)
    requires Valid(s)
    requires forall k | k in s.cats :: s.cats[k].name != Header.parentName
    requires rows != [] && rows[0] == UploadRow(Some(Header.name), Some(Header.parentName))
    ensures Import(s, rows) == (s, Some(NoValueMessage))
  {
    assert |Header.name| > 0;
  }

  /** What `execute(update)` answers and leaves behind, given what reading the document gave. */
  function UploadSpec(s: Store, update: Update, fetched: Result<seq<UploadRow>>): (r: (Store, string))
    requires Valid(s)
    ensures Valid(r.0)
    ensures !(update.message.Some? && update.message.value.document.Some?) ==> r == (s, AttachText)
    ensures update.message.Some? && update.message.value.document.Some? && fetched.Err? ==>
      r == (s, ErrorText(fetched.message))
    ensures update.message.Some? && update.message.value.document.Some? && fetched.Ok? ==>
      && r.0 == Import(s, fetched.value).0
      && (r.1 == SuccessText <==> Import(s, fetched.value).1.None?)
      && (Import(s, fetched.value).1.Some? ==> r.1 == ErrorText(NoValueMessage))
  {
    if !(update.message.Some? && update.message.value.document.Some?) then (s, AttachText)
    else match fetched
      case Err(message) => (s, ErrorText(message))
      case Ok(rows) =>
        var (after, failure) := Import(s, rows);
        SuccessIsNoError(NoValueMessage);
        (after, if failure.None? then SuccessText else ErrorText(failure.value))
  }

  /** The success reply is never an error reply, whatever the message. */
  lemma SuccessIsNoError(message: string)
    ensures SuccessText != ErrorText(message)
  {
    assert SuccessText[0] == 'Ф';
    assert ErrorText(message)[0] == 'О';
  }

  class UploadCommand {
    const service: CategoryService

    constructor (service: CategoryService)
      ensures this.service == service
    {
      this.service := service;
    }

    /** `execute(args)`: the fixed instruction, nothing else. */
    method ExecuteArgs(args: seq<string>) returns (reply: string)
      ensures reply == ArgsText
    {
      reply := ArgsText;
    }

    /**
     * `execute(update)`. Downloading and parsing the document are replaced by
     * `fetched`: the rows read, or the message of the failure.
     */
    method ExecuteUpdate(update: Update, fetched: Result<seq<UploadRow>>) returns (reply: string)
      requires service.repository.Valid()
      modifies service.repository
      ensures service.repository.Valid()
      ensures (service.repository.State(), reply) == UploadSpec(old(service.repository.State()), update, fetched)
    {
      if !(update.message.Some? && update.message.value.document.Some?) {
        return AttachText;
      }
      if fetched.Err? {
        return ErrorText(fetched.message);
      }
      var rows := fetched.value;
      ghost var start := service.repository.State();
      var i := 0;
      while i < |rows|
        invariant 0 <= i <= |rows|
        invariant service.repository.Valid()
        invariant Import(start, rows) == Import(service.repository.State(), rows[i..])
      {
        var row := rows[i];
        assert rows[i..][0] == row && rows[i..][1..] == rows[i + 1..];
        if row.name.None? || row.name.value == "" {
          i := i + 1;
          continue;
        }
        var categoryName := row.name.value;
        var parentCategory := row.parent;
        var saved := service.SaveCategory(categoryName, parentCategory);
        if saved.Err? {
          return ErrorText(saved.message);
        }
        i := i + 1;
      }
      return SuccessText;
    }
  }
}
