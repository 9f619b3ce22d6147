/**
 * The record types of the budget app and the small wrappers every other
 * module uses. Amounts are exact reals; dates carry the instant
 * (`getTime()`, milliseconds) together with the local calendar year and
 * month that `getFullYear()` / `getMonth()` would report for it.
 */
module Records {

  datatype Option<+T> = None | Some(value: T)

  datatype Result<+T> = Ok(value: T) | Err(error: DbError)

  /** Why a durable-store request was rejected. */
  datatype DbError =
    | ConstraintError   // `add` of a key that is already stored
    | OpenFailed        // the database could not be opened at all
    | VersionError      // the stored schema is newer than the one requested

  /** The settled state of an awaited store request: resolved or rejected. */
  datatype Outcome = Pass | Fail(error: DbError)

  /** `getMonth()` is zero-based. */
  type MonthOfYear = m: int | 0 <= m < 12

  datatype Date = Date(millis: int, year: int, month: MonthOfYear)

  datatype TransactionType = Income | Expense

  datatype CategoryType =
    | Gehalt | Kindergeld | Kredit | Versicherung | Tanken | Einkauf | Unterhaltung | Custom

  datatype Transaction = Transaction(
    id: string,
    amount: real,
    kind: TransactionType,
    categoryId: string,
    description: string,
    date: Date,
    createdAt: Date,
    updatedAt: Date,
    synced: Option<bool>)

  datatype Credit = Credit(
    id: string,
    creditor: string,
    debtor: string,
    totalAmount: real,
    termMonths: int,
    monthlyRate: real,
    effectiveInterestRate: real,
    startDate: Date,
    description: Option<string>,
    createdAt: Date,
    updatedAt: Date,
    synced: Option<bool>)

  datatype Category = Category(
    id: string,
    name: string,
    kind: CategoryType,
    transactionType: TransactionType,
    icon: Option<string>,
    color: Option<string>,
    isCustom: bool,
    createdAt: Date)

  datatype AppSettings = AppSettings(
    darkMode: bool,
    currency: string,
    pinEnabled: bool,
    biometricEnabled: bool,
    syncEnabled: bool,
    lastSync: Option<Date>)

  /** What a caller hands to `addTransaction`: a transaction without id and timestamps. */
  datatype TransactionDraft = TransactionDraft(
    amount: real,
    kind: TransactionType,
    categoryId: string,
    description: string,
    date: Date,
    synced: Option<bool>)

  /** What a caller hands to `addCredit`. */
  datatype CreditDraft = CreditDraft(
    creditor: string,
    debtor: string,
    totalAmount: real,
    termMonths: int,
    monthlyRate: real,
    effectiveInterestRate: real,
    startDate: Date,
    description: Option<string>,
    synced: Option<bool>)

  /** What a caller hands to `addCategory`: a category without id and creation time. */
  datatype CategoryDraft = CategoryDraft(
    name: string,
    kind: CategoryType,
    transactionType: TransactionType,
    icon: Option<string>,
    color: Option<string>,
    isCustom: bool)

  /** A `Partial<AppSettings>`: `None` is a field the patch does not carry. */
  datatype SettingsPatch = SettingsPatch(
    darkMode: Option<bool>,
    currency: Option<string>,
    pinEnabled: Option<bool>,
    biometricEnabled: Option<bool>,
    syncEnabled: Option<bool>,
    lastSync: Option<Date>)

  /** The one key the settings record is stored under. */
  const SettingsKey: string := "app-settings"

  /** The settings used before any were stored. */
  const DefaultSettings: AppSettings :=
    AppSettings(false, "€", false, false, false, None)

  /** The smaller of two lengths, as `slice` keeps at most that many elements. */
  function Min(a: int, b: int): int {
    if a <= b then a else b
  }

  // The `keyPath: 'id'` of each object store.
  function TransactionKey(t: Transaction): string { t.id }
  function CreditKey(c: Credit): string { c.id }
  function CategoryKey(c: Category): string { c.id }
}
