# NonIsothermicalFlow in Dafny

A Dafny model of the logic at the core of NonIsothermicalFlow. The system is a
Spring back end and a React front end for simulating the non-isothermal flow of
a polymer melt in a screw channel and for keeping the material catalogue that
feeds it. The model covers six groups:

- **The flow simulation.** `validateParameters`, the derived scalars, the
  closed-form temperature and viscosity profile sampled on the grid, and the
  summary values (`FlowSimulation`). The helper formulas of `MathObject` are
  written as they stand and compared with the service (`MathObjectFormulas`).
- **Connection strings and backup names.**
  - The JDBC URL extractors of the credentials configuration (`JdbcUrl`).
  - The split-based extractor and the directory backups (`DirectoryBackups`).
  - The file-based backups of the Docker and JDBC-configured services
    (`FileBackups`), with the `yyyyMMdd_HHmmss` stamp they write
    (`Timestamps`).
  - The page's `parseBackupName` and `formatFileSize` (`BackupListing`), with
    JavaScript's `parseInt`, `parseFloat` and `Number` (`JsNumbers`).
- **The SQL dump text.** The value and column rendering of the JDBC dumper
  and the line-oriented statement splitter of its restore, with the round
  trip between them table by table (`SqlDump`) and for a whole dump, from
  `BEGIN;` to `COMMIT;` with the foreign keys (`DumpRestore`).
- **The material catalogue.** Materials, properties and coefficients with
  unique names, the values per (material, definition) pair, and the cascading
  deletes (`Catalogue`).
- **Users and roles.** The role enum and entity conversions, `getOrCreateRole`,
  and user creation and partial update (`Users`).
- **The pages' own logic.**
  - The in-memory tables with `max + 1` ids (`Rows`, `MathModelTable`,
    `ProcessParamsTable`, `UserMaterialsTable`, `UsersTable`,
    `AdminMaterialsTable`).
  - The value editors (`ValueEditors`).
  - The comparison tables' column building (`MaterialsOverview`).
  - The simulation form (`SimulationForm`) and its numeric checks
    (`FormChecks`).
  - The emulated sign-in service, the sign-up checks and the route guard
    (`AuthPages`).

Shared pieces:

- `Outcomes` holds `Option` and `Result`.
- `Text` holds Java's and JavaScript's string operations as the code uses
  them: `indexOf`, `lastIndexOf`, `split` with its trailing-empty rule, `trim`,
  `toLowerCase` and decimal rendering.

What is outside the model:

- Files, processes, JDBC and the clock. A directory listing, the current time
  or a process outcome arrives as a parameter. Where a listing reads the clock
  once per file, the readings are a function from the file's position to a
  time.
- `exp`, `ln` and `pow`. They are an `Analysis` record of function values, and
  the two laws the entrance of the channel needs are a precondition (`Lawful`)
  where used.
- Doubles. They are exact reals. A run whose arithmetic divides by zero, or
  takes the logarithm of a chi that is zero or negative, ends in a
  `DivisionByZero` or `NonPositiveChi` outcome. The service instead carries on
  with infinities and NaN.
- JavaScript numbers. They are `JsNum` (NaN, a real, or an infinity).

## Model

| member | source | states |
|---|---|---|
| FlowSimulation.ValidateParameters | src/main/java/com/example/nonisothermicalflow/math/service/MathService.java:166-172 | a model that passes has a nonzero width, depth and length, the divisors of the shape factor, the shear rate and the step count |
| FlowSimulation.ValidationIgnoresOtherFields | src/main/java/com/example/nonisothermicalflow/math/service/MathService.java:166-172 | the verdict depends on width, depth, length, cover speed and cover temperature only: two models agreeing on those five get the same verdict |
| FlowSimulation.ValidationAdmitsNonPositiveStep | src/main/java/com/example/nonisothermicalflow/math/service/MathService.java:166-172 | the step and the density are not checked: a valid model with a zero step, or a negative step and zero density, still passes |
| FlowSimulation.Derive | src/main/java/com/example/nonisothermicalflow/math/service/MathService.java:49-76 | the derived scalars satisfy their defining equations: gamma·H = Vu, C1·C2 = C1g·C2g, b·(C2 + T_avg − Tr) = C1, Q_CH = H·W·Vu·F/2, with T_avg and C2 the averaged and shifted temperatures |
| FlowSimulation.ChiFormulaAtEntrance | src/main/java/com/example/nonisothermicalflow/math/service/MathService.java:99-114 | at z = 0, given exp(0) = 1, the first exponential is 1, part1 vanishes and chi = exp(b·(T0 − Tr)) |
| FlowSimulation.ChiAtEntrance | src/main/java/com/example/nonisothermicalflow/math/service/MathService.java:93-114 | for the scalars the service derives, chi at the entrance is exp(b·(T0 − Tr)) |
| FlowSimulation.TemperatureAtEntrance | src/main/java/com/example/nonisothermicalflow/math/service/MathService.java:93-119 | the temperature at z = 0 is the melting temperature T0, given ln(exp x) = x and exp(0) = 1 |
| FlowSimulation.ViscosityAtEntrance | src/main/java/com/example/nonisothermicalflow/math/service/MathService.java:118-123 | the viscosity at z = 0 is mu0·exp(−b·(T0 − Tr))·gamma^(n−1) |
| FlowSimulation.Divide | src/main/java/com/example/nonisothermicalflow/math/service/MathService.java:79 | L / step is the real quotient for a nonzero step; a zero step gives +Infinity for a positive length, −Infinity for a negative one, NaN for zero |
| FlowSimulation.RoundToLong | src/main/java/com/example/nonisothermicalflow/math/service/MathService.java:79 | `Math.round` lands within one half of a finite quotient unless it saturates at the `long` bounds, and is floor(x + 1/2) whenever that fits a `long` |
| FlowSimulation.NarrowToInt | src/main/java/com/example/nonisothermicalflow/math/service/MathService.java:79 | the `(int)` cast lies in the `int` range, agrees with its input modulo 2^32, and leaves a value already in range unchanged |
| FlowSimulation.StepsCountRounds | src/main/java/com/example/nonisothermicalflow/math/service/MathService.java:79 | for a positive step and a grid that fits an `int`, stepsCount = round(L/step) ≥ 0 and lies within one half of L/step |
| FlowSimulation.StepsCountOfWholeLength | src/main/java/com/example/nonisothermicalflow/math/service/MathService.java:79 | a step equal to the length gives one interval |
| FlowSimulation.StepsCountOfZeroStep | src/main/java/com/example/nonisothermicalflow/math/service/MathService.java:79 | a zero step with a positive length makes stepsCount −1 (Long.MAX_VALUE narrowed), so the grid is empty |
| FlowSimulation.StepsCountOfLongNegativeStep | src/main/java/com/example/nonisothermicalflow/math/service/MathService.java:79 | a negative step longer than twice the length rounds to 0, a one-point grid |
| FlowSimulation.Outcome | src/main/java/com/example/nonisothermicalflow/math/service/MathService.java:79-134 | a run fails with an empty profile exactly when stepsCount is negative; otherwise the grid has stepsCount + 1 points |
| FlowSimulation.SampleGrid | src/main/java/com/example/nonisothermicalflow/math/service/MathService.java:83-126 | the loop yields stepsCount + 1 index-aligned samples (none for a negative count); the k-th position is k·step and each temperature and viscosity is the closed-form value at its own position, with nothing carried between iterations |
| FlowSimulation.RunSimulation | src/main/java/com/example/nonisothermicalflow/math/service/MathService.java:49-134 | every model gets an answer: a failure exactly when the outcome fails, DivisionByZero when the grid is non-empty but a divisor of the profile is zero, NonPositiveChi when chi is zero or negative at some grid point, so that `Math.log` at line 118 has no real value; otherwise chi is positive at every position, the lists have stepsCount + 1 index-aligned samples, productivity = 3600·rho·Q_CH, and the final temperature and viscosity are the last samples |
| FlowSimulation.EntranceGridChiPositive | src/main/java/com/example/nonisothermicalflow/math/service/MathService.java:93-118 | a grid with only the entrance point never ends in NonPositiveChi when exp takes only positive values, because chi there is exp(b·(T0 − Tr)) |
| FlowSimulation.ValidatedYetNotComputable | src/main/java/com/example/nonisothermicalflow/math/service/MathService.java:166-172 | a model with zero density or zero heat capacity passes validation, yet its profile divides by zero |
| FlowSimulation.PositionsIncrease | src/main/java/com/example/nonisothermicalflow/math/service/MathService.java:88-90 | with a positive step the positions start at 0, strictly increase, and are one step apart |
| FlowSimulation.ProfileStartsAtMeltingTemp | src/main/java/com/example/nonisothermicalflow/math/service/MathService.java:88-119 | a non-empty sampled profile starts at position 0 with the melting temperature |
| MathObjectFormulas.HelpersAgreeWithService | src/main/java/com/example/nonisothermicalflow/math/model/MathObject.java:26-64 | calculateC2, C1, F, QCH, Gamma, Qγ, Qα and T compute the service's C2, C1, F, Q_CH, gamma, q_gamma, q_alpha and average temperature |
| MathObjectFormulas.GridSizeAgreesWithService | src/main/java/com/example/nonisothermicalflow/math/model/MathObject.java:54-56 | calculateN is the service's step count widened to a double, and is round(L/step) when the step is positive and the grid fits an `int` |
| MathObjectFormulas.XiAgreesWithFormula | src/main/java/com/example/nonisothermicalflow/math/model/MathObject.java:66-80 | calculeteXi is the service's chi = part1 + exp2 for any scalars |
| MathObjectFormulas.XiAgreesWithService | src/main/java/com/example/nonisothermicalflow/math/model/MathObject.java:66-80 | given the scalars the service derives, calculeteXi is the service's chi at every position |
| MathObjectFormulas.XiAtEntrance | src/main/java/com/example/nonisothermicalflow/math/model/MathObject.java:66-80 | at zi = 0 calculeteXi is exp(b·(meltingPoint − castingTemperature)) |
| MathObjectFormulas.CoefficientBDisagrees | src/main/java/com/example/nonisothermicalflow/math/model/MathObject.java:58-60 | calculateB is not the service's b: on one valid model the service derives 1/51 and the helper 51 |
| JdbcUrl.Authority | src/main/java/com/example/nonisothermicalflow/admin/config/DatabaseCredentialsConfig.java:101 | the remainder after the scheme is what follows "jdbc:postgresql://" |
| JdbcUrl.ExtractHost | src/main/java/com/example/nonisothermicalflow/admin/config/DatabaseCredentialsConfig.java:95-108 | "localhost" for null or a URL without the scheme; otherwise a prefix of the remainder without ':' that ends at the first ':', or, with no ':', at the first '/' or the end |
| JdbcUrl.ExtractPort | src/main/java/com/example/nonisothermicalflow/admin/config/DatabaseCredentialsConfig.java:113-131 | "5432" for null, a URL without the scheme or a remainder without ':'; otherwise the slice after the first ':', free of '/', ending at the next '/' or the end |
| JdbcUrl.ExtractDbName | src/main/java/com/example/nonisothermicalflow/admin/config/DatabaseCredentialsConfig.java:136-150 | "" for null, for no '/' or for a trailing '/'; otherwise a prefix of the text after the last '/' that stops at the first '?', so it never holds '/' or '?' |
| JdbcUrl.HostBeforeColon | src/main/java/com/example/nonisothermicalflow/admin/config/DatabaseCredentialsConfig.java:101-107 | for scheme + host + ":" + anything, with host free of ':', the host is recovered |
| JdbcUrl.PortBetweenColonAndSlash | src/main/java/com/example/nonisothermicalflow/admin/config/DatabaseCredentialsConfig.java:119-130 | for scheme + host + ":" + port + "/" + anything, the port is recovered |
| JdbcUrl.NameAfterLastSlash | src/main/java/com/example/nonisothermicalflow/admin/config/DatabaseCredentialsConfig.java:142-149 | for front + "/" + name, with name free of '/' and '?', the name is recovered |
| JdbcUrl.UrlRoundTrip | src/main/java/com/example/nonisothermicalflow/admin/config/DatabaseCredentialsConfig.java:95-150 | for "jdbc:postgresql://h:p/d" with h free of ':', p free of '/' and d free of '/' and '?', the three extractors return h, p and d |
| JdbcUrl.MaterialsEndpoint | src/main/java/com/example/nonisothermicalflow/admin/config/DatabaseCredentialsConfig.java:53-69 | the materials getters carry the materials credentials, and agree with the users getters on host, port and name when the two URLs are equal |
| JdbcUrl.UsersEndpoint | src/main/java/com/example/nonisothermicalflow/admin/config/DatabaseCredentialsConfig.java:74-90 | the users getters carry the users credentials |
| JdbcUrl.MaterialsEndpointIgnoresUsersUrl | src/main/java/com/example/nonisothermicalflow/admin/config/DatabaseCredentialsConfig.java:53-69 | the materials getters never read the users URL |
| JdbcUrl.EndpointsFromWellFormedUrls | src/main/java/com/example/nonisothermicalflow/admin/config/DatabaseCredentialsConfig.java:53-90 | with well-formed URLs, each database's getters return the host, port and name its own URL was built from |
| DirectoryBackups.ExtractDatabaseName | src/main/java/com/example/nonisothermicalflow/config/DatabaseBackupService.java:248-252 | fails exactly when the URL splits into no pieces (the index out of bounds); otherwise a piece of the split free of '/' |
| DirectoryBackups.NameAfterLastSlash | src/main/java/com/example/nonisothermicalflow/config/DatabaseBackupService.java:250-251 | for a URL not ending in '/', the name is all the text after the last '/' |
| DirectoryBackups.TrailingSlashIgnored | src/main/java/com/example/nonisothermicalflow/config/DatabaseBackupService.java:250-251 | split drops the trailing empty piece, so a trailing '/' yields the segment before it |
| DirectoryBackups.OnlySlashesFail | src/main/java/com/example/nonisothermicalflow/config/DatabaseBackupService.java:250-251 | a URL made only of '/' has no pieces and the read fails |
| DirectoryBackups.QueryStringKept | src/main/java/com/example/nonisothermicalflow/config/DatabaseBackupService.java:248-252 | a last segment holding '?' is kept whole here but cut by the credentials' extractor: the two disagree |
| DirectoryBackups.ExtractorsAgree | src/main/java/com/example/nonisothermicalflow/config/DatabaseBackupService.java:248-252 | the two extractors agree on a URL whose non-empty last segment has no '?' |
| DirectoryBackups.DatabaseNames | src/main/java/com/example/nonisothermicalflow/config/DatabaseBackupService.java:121-122 | fails exactly when a URL is unset or has no pieces; otherwise the materials name then the users name |
| DirectoryBackups.CreateBackup | src/main/java/com/example/nonisothermicalflow/config/DatabaseBackupService.java:106-131 | the name is "backup_" + a stamp that parses back to the time of the call; the materials dump then the users dump are written under db-backups/name with their own user names; a directory that cannot be made fails first |
| DirectoryBackups.AvailableBackups | src/main/java/com/example/nonisothermicalflow/config/DatabaseBackupService.java:192-215 | a missing root lists nothing; otherwise a name is listed iff it is a sub-directory holding both materials_db.sql and users_db.sql |
| DirectoryBackups.Lookup | src/main/java/com/example/nonisothermicalflow/config/DatabaseBackupService.java:157-160 | finds a directory of that name, and none exactly when there is none |
| DirectoryBackups.RestoreFromBackup | src/main/java/com/example/nonisothermicalflow/config/DatabaseBackupService.java:156-181 | a missing directory, then a missing dump, is rejected before anything runs; a success restores the materials dump first, then the users dump |
| DirectoryBackups.ListedBackupsRestore | src/main/java/com/example/nonisothermicalflow/config/DatabaseBackupService.java:156-215 | every listed backup passes the restore checks: restoring it fails only on the configuration |
| Timestamps.DaysInMonth | src/main/java/com/example/nonisothermicalflow/admin/service/DatabaseBackupService.java:37 | every month of the proleptic Gregorian calendar has 28 to 31 days |
| Timestamps.Format | src/main/java/com/example/nonisothermicalflow/admin/service/DatabaseBackupService.java:304 | `yyyyMMdd_HHmmss` writes 15 characters: eight digits, '_' and six digits |
| Timestamps.NextDay | src/main/java/com/example/nonisothermicalflow/admin/service/DatabaseBackupService.java:285 | the day after a valid timestamp is valid, keeps the time of day, and comes later; the parser uses it when it rolls 24:00:00 over |
| Timestamps.Parse | src/main/java/com/example/nonisothermicalflow/admin/service/DatabaseBackupService.java:284-289 | a text that parses has the stamp's shape and gives a valid timestamp with a year of era at least 1 |
| Timestamps.ParseFormat | src/main/java/com/example/nonisothermicalflow/admin/service/DatabaseBackupService.java:284-289 | reading back a written timestamp gives it unchanged (second resolution) |
| Timestamps.FieldsWriteBack | src/main/java/com/example/nonisothermicalflow/admin/service/DatabaseBackupService.java:304 | writing the six fields read from a text of the stamp's shape back at their widths gives the text |
| Timestamps.FormatParse | src/main/java/com/example/nonisothermicalflow/admin/service/DatabaseBackupService.java:284-289 | a text read without correction is exactly what writing the timestamp read from it produces |
| Timestamps.KeyOrder | src/main/java/com/example/nonisothermicalflow/admin/service/DatabaseBackupService.java:64 | on valid timestamps the ordering key agrees with the calendar order of `LocalDateTime.compareTo`, and equal keys mean equal timestamps |
| FileBackups.BackupFilename | src/main/java/com/example/nonisothermicalflow/admin/service/DockerDatabaseBackupService.java:370-371 | the file name is the database name followed by 20 characters ending in ".sql" |
| FileBackups.DateText | src/main/java/com/example/nonisothermicalflow/admin/service/DockerDatabaseBackupService.java:350 | the regular expression's replacement has the stamp's shape exactly when the name matches (or already was a bare stamp), and for a match it is the 15 characters before ".sql" |
| FileBackups.CreationDate | src/main/java/com/example/nonisothermicalflow/admin/service/DockerDatabaseBackupService.java:347-356 | the date is a valid timestamp read from the name, or the current time |
| FileBackups.CreationDateOfBackupName | src/main/java/com/example/nonisothermicalflow/admin/service/DockerDatabaseBackupService.java:347-371 | the date written into a backup's name is the date read out of it |
| FileBackups.CreationDateFallsBack | src/main/java/com/example/nonisothermicalflow/admin/service/DockerDatabaseBackupService.java:352-355 | a name with no stamp before ".sql" is dated with the current time |
| FileBackups.DatabaseOf | src/main/java/com/example/nonisothermicalflow/admin/service/DockerDatabaseBackupService.java:332-339 | for any file name: the materials name when the name contains it; otherwise the users name when it contains that; otherwise "unknown" |
| FileBackups.MaterialsBackupNamed | src/main/java/com/example/nonisothermicalflow/admin/service/DockerDatabaseBackupService.java:332-371 | a materials dump is attributed to the materials database |
| FileBackups.UsersBackupNamed | src/main/java/com/example/nonisothermicalflow/admin/service/DatabaseBackupService.java:266-273 | a users dump is attributed to the users database unless its file name contains the materials name |
| FileBackups.FixedNamesSeparate | src/main/java/com/example/nonisothermicalflow/admin/service/DockerDatabaseBackupService.java:332-339 | with the fixed names, each dump is attributed to its own database |
| FileBackups.MaterialsNameInsideUsersName | src/main/java/com/example/nonisothermicalflow/admin/service/DatabaseBackupService.java:267-268 | when the configured users name contains the materials name, every users dump is attributed to the materials database |
| FileBackups.DescribeAll | src/main/java/com/example/nonisothermicalflow/admin/service/DockerDatabaseBackupService.java:59-62 | exactly the regular files whose name ends in ".sql" are described, each by its own file and dated, when undated, by the clock reading taken as that file is mapped |
| FileBackups.Insert | src/main/java/com/example/nonisothermicalflow/admin/service/DockerDatabaseBackupService.java:63 | inserting into a newest-first list keeps it newest first and adds exactly that backup |
| FileBackups.SortNewestFirst | src/main/java/com/example/nonisothermicalflow/admin/service/DockerDatabaseBackupService.java:63 | the sort yields a newest-first permutation of its input |
| FileBackups.SortKeepsOrderedList | src/main/java/com/example/nonisothermicalflow/admin/service/DockerDatabaseBackupService.java:63 | sorting a list already newest first leaves it unchanged |
| FileBackups.AllBackups | src/main/java/com/example/nonisothermicalflow/admin/service/DockerDatabaseBackupService.java:43-69 | a missing or unlistable directory gives nothing; otherwise newest first, and a backup is listed iff it describes a regular ".sql" file, as mapped with its own clock reading |
| FileBackups.LaterReadingListedFirst | src/main/java/com/example/nonisothermicalflow/admin/service/DockerDatabaseBackupService.java:59-64 | two undated files are dated by the readings taken as each is mapped, and once the clock has moved on between them the later-read file comes first |
| FileBackups.FindById | src/main/java/com/example/nonisothermicalflow/admin/service/DockerDatabaseBackupService.java:124-129 | finds the first backup with that id, and none exactly when no backup has it |
| FileBackups.BackupById | src/main/java/com/example/nonisothermicalflow/admin/service/DockerDatabaseBackupService.java:124-129 | fails with an unknown id exactly when no listed backup has that id; otherwise a listed backup with that id |
| FileBackups.ListedFileFoundById | src/main/java/com/example/nonisothermicalflow/admin/service/DockerDatabaseBackupService.java:124-129 | when ids are distinct, looking up a listed file's id finds that file's description |
| FileBackups.BackupFile | src/main/java/com/example/nonisothermicalflow/admin/service/DockerDatabaseBackupService.java:138-148 | succeeds exactly when the id is known and the file exists or is readable, and then gives its file name |
| FileBackups.CreateOne | src/main/java/com/example/nonisothermicalflow/admin/service/DockerDatabaseBackupService.java:368-418 | a dump fails exactly when the tool exits with an error or leaves an empty file; otherwise it is described under the name written at the clock reading, with a positive size |
| FileBackups.CreateBackups | src/main/java/com/example/nonisothermicalflow/admin/service/DockerDatabaseBackupService.java:77-115 | the tool, the directory and write access are checked in that order; a run succeeds exactly when both dumps do, materials first then users |
| FileBackups.CreatedBackupsDescribeThemselves | src/main/java/com/example/nonisothermicalflow/admin/service/DockerDatabaseBackupService.java:77-115 | each new backup is dated by the clock reading in its name and attributed to its own database |
| FileBackups.CreatedDescribes | src/main/java/com/example/nonisothermicalflow/admin/service/DockerDatabaseBackupService.java:409 | a new dump is described by the date and database its name gives |
| FileBackups.ContainerFor | src/main/java/com/example/nonisothermicalflow/admin/service/DockerDatabaseBackupService.java:175-181 | only materials_db and users_db have a container; any other database, "unknown" included, is rejected |
| FileBackups.RestoreInContainer | src/main/java/com/example/nonisothermicalflow/admin/service/DockerDatabaseBackupService.java:157-181 | without Docker nothing runs; an unknown id fails; a restore uses the backup's existing file, and the materials container exactly for materials_db, the users container exactly for users_db |
| FileBackups.ServerFor | src/main/java/com/example/nonisothermicalflow/admin/service/DatabaseBackupService.java:182-197 | a database matching the configured materials name takes the materials server, else one matching the users name takes the users server, else it is rejected |
| FileBackups.RestoreOnServer | src/main/java/com/example/nonisothermicalflow/admin/service/DatabaseBackupService.java:169-197 | without psql nothing runs; an unknown id fails; a restore uses the backup's existing file and the server its database is configured on |
| FileBackups.DumpsReturnToTheirContainers | src/main/java/com/example/nonisothermicalflow/admin/service/DockerDatabaseBackupService.java:175-181 | each dump of the fixed naming goes back into the container it was taken from |
| FileBackups.DumpsReturnToTheirServers | src/main/java/com/example/nonisothermicalflow/admin/service/DatabaseBackupService.java:185-197 | a materials dump goes back to the materials server; a users dump goes back to the users server unless its name contains the materials name, and when the users name contains the materials name it goes to the materials server |
| SqlDump.ReadEscaped | src/main/java/com/example/nonisothermicalflow/config/JdbcDatabaseBackupService.java:257-263 | a text value with every quote doubled, closed by a quote, reads back as exactly that value and leaves the text after the closing quote untouched |
| SqlDump.RenderValue | src/main/java/com/example/nonisothermicalflow/config/JdbcDatabaseBackupService.java:252-269 | a missing value is written NULL; a value of a text-like column is written as a quoted literal that reads back to its text; a boolean column is written true or false |
| SqlDump.RenderValues | src/main/java/com/example/nonisothermicalflow/config/JdbcDatabaseBackupService.java:247-270 | one rendered value per cell, in column order |
| SqlDump.TypeSuffix | src/main/java/com/example/nonisothermicalflow/config/JdbcDatabaseBackupService.java:195-199 | character types get (size), numeric with decimal digits gets (size,digits), every other type gets nothing, and a suffix always starts with '(' |
| SqlDump.FirstBreak | src/main/java/com/example/nonisothermicalflow/config/JdbcDatabaseBackupService.java:357-361 | the first line break of the text, or none exactly when the text has no break; the text before it has none |
| SqlDump.ReadLines | src/main/java/com/example/nonisothermicalflow/config/JdbcDatabaseBackupService.java:357-361 | the lines read from a text never contain a line break |
| SqlDump.ReadUnlines | src/main/java/com/example/nonisothermicalflow/config/JdbcDatabaseBackupService.java:357-361 | reading back lines that were written each followed by a newline gives the same lines |
| SqlDump.SplitAppend | src/main/java/com/example/nonisothermicalflow/config/JdbcDatabaseBackupService.java:361-396 | the splitter reads a file in two parts as it reads the whole: the statements of the first part, then those of the second started from the buffer the first left |
| SqlDump.Executed | src/main/java/com/example/nonisothermicalflow/config/JdbcDatabaseBackupService.java:372-377 | a statement is executed exactly when it is not BEGIN; or COMMIT; in any letter case |
| SqlDump.ExecutedAppend | src/main/java/com/example/nonisothermicalflow/config/JdbcDatabaseBackupService.java:372-377 | which statements are executed does not depend on what comes before or after them |
| SqlDump.SplitStatementLines | src/main/java/com/example/nonisothermicalflow/config/JdbcDatabaseBackupService.java:361-395 | lines that are each a complete trimmed statement come back one statement per line, with an empty buffer |
| SqlDump.SplitCarries | src/main/java/com/example/nonisothermicalflow/config/JdbcDatabaseBackupService.java:363-369 | lines that are neither empty, comments nor ';'-terminated emit nothing and only extend the buffer with their trimmed text and a newline |
| SqlDump.SplitComment | src/main/java/com/example/nonisothermicalflow/config/JdbcDatabaseBackupService.java:363-366 | a '--' comment line is skipped whatever is buffered |
| SqlDump.InsertIsStatementLine | src/main/java/com/example/nonisothermicalflow/config/JdbcDatabaseBackupService.java:234-272 | an INSERT of a clean table with clean values is one trimmed line ending in ';', so it is read back as itself |
| SqlDump.CreateTextIsLines | src/main/java/com/example/nonisothermicalflow/config/JdbcDatabaseBackupService.java:171-222 | the structure part written for a table is its comment, its opening line, one line per column and the key line, each ended by a newline, then ");" and an empty line |
| SqlDump.SplitCreate | src/main/java/com/example/nonisothermicalflow/config/JdbcDatabaseBackupService.java:171-222 | the structure part of a clean table is read back as one CREATE TABLE statement holding its trimmed lines |
| SqlDump.SplitData | src/main/java/com/example/nonisothermicalflow/config/JdbcDatabaseBackupService.java:225-276 | the data part of a clean table is read back as its INSERT statements, one per row, in row order |
| DumpRestore.DumpIsLines | src/main/java/com/example/nonisothermicalflow/config/JdbcDatabaseBackupService.java:157-295 | the dump file is BEGIN;, an empty line, every table's structure and data lines, the foreign-key lines, an empty line and COMMIT;, each line ended by a newline |
| DumpRestore.ForeignKeyIsStatementLine | src/main/java/com/example/nonisothermicalflow/config/JdbcDatabaseBackupService.java:288-290 | a foreign-key statement of names without line breaks is one line ending in ';' |
| DumpRestore.SplitTables | src/main/java/com/example/nonisothermicalflow/config/JdbcDatabaseBackupService.java:167-277 | the tables' part of the dump splits into each table's CREATE TABLE then its INSERTs, table after table, leaving nothing buffered |
| DumpRestore.ExecutedWrapped | src/main/java/com/example/nonisothermicalflow/config/JdbcDatabaseBackupService.java:374-377 | between a BEGIN; and a COMMIT;, every statement longer than COMMIT; is executed and the two wrapper statements are not |
| DumpRestore.DumpRoundTrip | src/main/java/com/example/nonisothermicalflow/config/JdbcDatabaseBackupService.java:336-396 | restoring a dump written by the dumper executes exactly the dumped CREATE TABLE and INSERT statements, table by table, then the foreign keys, in order, and never the BEGIN;/COMMIT; wrapper, whenever no name or value holds a line break |
| DumpRestore.TailNeverExecuted | src/main/java/com/example/nonisothermicalflow/config/JdbcDatabaseBackupService.java:361-396 | text after the last ';' only fills the buffer, which is discarded when the file ends: it adds no statement |
| BackupListing.ParseBackupName | frontend/src/services/databaseService.ts:10-37 | the name is always kept; a date is read exactly when the name starts with backup_ and the rest splits at '_' into an 8-character and a 6-character piece |
| BackupListing.ParseServiceBackupName | frontend/src/services/databaseService.ts:14-31 | the name the backup services write for an instant is read back as that instant's year, month (counted from zero), day, hour, minute and second |
| BackupListing.ParseMisnamedBackup | frontend/src/services/databaseService.ts:14-18 | a name without the prefix, or with more than one '_' after it, gets no date |
| BackupListing.LetterInYear | frontend/src/services/databaseService.ts:22-31 | a year field with a non-digit after its first digits still gives a date: parseInt stops there, so for backup_20x50101_120000 new Date receives the year 20 |
| BackupListing.ShapedName | frontend/src/services/databaseService.ts:14-31 | any 8- and 6-character pieces without '_' after the prefix give a date built from their fields |
| BackupListing.FormatFileSize | frontend/src/components/admin/DatabaseBackupTable.tsx:144-149 | the unit shown is bytes below 1024, kilobytes below 1024², megabytes below 1024³ and gigabytes from there on, each in exactly its range |
| BackupListing.ReadFileSize | frontend/src/components/admin/DatabaseBackupTable.tsx:144-149 | reading the shown size back gives a number: the exact byte count below 1024, otherwise within half a hundredth of the size in the shown unit |
| JsNumbers.ParseFloat | frontend/src/components/admin/tables/MathModelTable.tsx:103 | parseFloat gives NaN exactly when the text, after leading white space, does not start like a number |
| JsNumbers.ParseFloatOfDigits | frontend/src/components/simulation/SimulationPage.tsx:88 | parseFloat of a run of decimal digits is their value |
| JsNumbers.ParseFloatDigitsThen | frontend/src/components/admin/tables/ProcessParamsTable.tsx:57 | parseFloat of digits followed by anything that cannot continue a number is the digits' value: trailing text is ignored |
| JsNumbers.ParseIntOfDigits | frontend/src/services/databaseService.ts:23-29 | parseInt of a run of decimal digits is their value |
| JsNumbers.ParseIntHex | frontend/src/services/databaseService.ts:23 | parseInt with no radix reads a 0x prefix as hexadecimal |
| JsNumbers.NumberOf | frontend/src/components/admin/MaterialPropertyValuesEditor.tsx:108 | Number of an empty or blank text is zero, not NaN |
| JsNumbers.NumberOfDigits | frontend/src/components/admin/MaterialCoefficientValuesEditor.tsx:102 | Number of a run of decimal digits is their value |
| JsNumbers.ParseNatToString | frontend/src/components/admin/DatabaseBackupTable.tsx:145 | a whole number written in decimal reads back as itself through both parseFloat and Number |
| Catalogue.BlankMeansControlOnly | src/main/java/com/example/nonisothermicalflow/materials/service/MaterialService.java:49 | a name counts as empty exactly when every character is at or below U+0020, the characters trim removes |
| Catalogue.GetMaterial | src/main/java/com/example/nonisothermicalflow/materials/service/MaterialService.java:20-31 | a null id fails as a null argument; otherwise the lookup succeeds exactly when a material has the id, and returns that material |
| Catalogue.CreateMaterial | src/main/java/com/example/nonisothermicalflow/materials/service/MaterialService.java:43-66 | creation succeeds exactly when the input is present, its name is not blank, its type is present, no material has the name and the entity passes validation at the save (a non-blank type, name and type at most 255 UTF-16 units, as src/main/java/com/example/nonisothermicalflow/materials/model/Material.java:32-38 requires), failing last as an invalid entity; the material is stored under the fresh id, nothing else changes, and unique names and value references are kept |
| Catalogue.UpdateMaterial | src/main/java/com/example/nonisothermicalflow/materials/service/MaterialService.java:69-102 | an update succeeds exactly when the id is given and known, the input is complete, the name is the material's own or unused and the updated entity passes validation at the save; only that material changes |
| Catalogue.DeleteMaterial | src/main/java/com/example/nonisothermicalflow/materials/service/MaterialService.java:105-120 | deleting succeeds exactly when the id is a material; the material and every property and coefficient value of it go, and everything else stays |
| Catalogue.GetDefinition | src/main/java/com/example/nonisothermicalflow/materials/service/MaterialPropertyService.java:20-31 | a null id fails as a null argument; otherwise the lookup succeeds exactly when the id is known, returning that property or coefficient |
| Catalogue.CreateDefinition | src/main/java/com/example/nonisothermicalflow/materials/service/MaterialPropertyService.java:43-66 | creation succeeds exactly when the input is present with a non-blank name and unit, the name is unused and the entity passes validation at the save (name at most 255 and unit at most 50 UTF-16 units), failing last as an invalid entity; the definition is added under the fresh id and names stay unique |
| Catalogue.UpdateDefinition | src/main/java/com/example/nonisothermicalflow/materials/service/MaterialPropertyService.java:69-102 | an update succeeds exactly when the id is given and known, name and unit are not blank, the name is its own or unused and the updated entity passes the length limits at the save; only that definition changes |
| Catalogue.CreateProperty | src/main/java/com/example/nonisothermicalflow/materials/service/MaterialPropertyService.java:43-66 | a property is created exactly as a definition is, and the catalogue stays valid |
| Catalogue.UpdateProperty | src/main/java/com/example/nonisothermicalflow/materials/service/MaterialPropertyService.java:69-102 | a property is updated exactly as a definition is, and the catalogue stays valid |
| Catalogue.DeleteProperty | src/main/java/com/example/nonisothermicalflow/materials/service/MaterialPropertyService.java:105-120 | deleting succeeds exactly when the id is a property; the property and all its values go, materials, coefficients and coefficient values stay |
| Catalogue.CreateCoefficient | src/main/java/com/example/nonisothermicalflow/materials/service/EmpericalCoefficientService.java:43-66 | a coefficient is created exactly as a definition is, and the catalogue stays valid |
| Catalogue.UpdateCoefficient | src/main/java/com/example/nonisothermicalflow/materials/service/EmpericalCoefficientService.java:69-102 | a coefficient is updated exactly as a definition is, and the catalogue stays valid |
| Catalogue.DeleteCoefficient | src/main/java/com/example/nonisothermicalflow/materials/service/EmpericalCoefficientService.java:105-120 | deleting succeeds exactly when the id is a coefficient; the coefficient and all its values go, materials, properties and property values stay |
| Catalogue.AddValue | src/main/java/com/example/nonisothermicalflow/materials/service/MaterialPropertyValueService.java:23-45 | a null value fails as a null argument; adding succeeds exactly when the material and the definition exist and the pair has no value yet, and then stores the value for the pair |
| Catalogue.UpdateValue | src/main/java/com/example/nonisothermicalflow/materials/service/MaterialPropertyValueService.java:48-66 | updating succeeds exactly when the material and definition exist and the pair already has a value; the value is replaced and no pair is added or removed |
| Catalogue.GetValues | src/main/java/com/example/nonisothermicalflow/materials/service/MaterialPropertyValueService.java:69-82 | the listing succeeds exactly when the material exists and holds exactly that material's values |
| Catalogue.DeleteValue | src/main/java/com/example/nonisothermicalflow/materials/service/MaterialPropertyValueService.java:85-104 | deleting succeeds exactly when material, definition and the pair's value exist, and removes that pair only |
| Catalogue.DeleteValuesOfMaterial | src/main/java/com/example/nonisothermicalflow/materials/service/MaterialPropertyValueService.java:107-120 | for a known material, exactly its values are removed and every other value keeps its number |
| Catalogue.DeleteValuesOfDefinition | src/main/java/com/example/nonisothermicalflow/materials/service/MaterialPropertyValueService.java:123-136 | for a known definition, exactly its values are removed and every other value keeps its number |
| Catalogue.AddPropertyValue | src/main/java/com/example/nonisothermicalflow/materials/service/MaterialPropertyValueService.java:23-45 | a property value is added exactly when the generic add succeeds, only the property values change, and the catalogue stays valid |
| Catalogue.UpdatePropertyValue | src/main/java/com/example/nonisothermicalflow/materials/service/MaterialPropertyValueService.java:48-66 | a property value is replaced exactly when the generic update succeeds, and the catalogue stays valid |
| Catalogue.DeletePropertyValue | src/main/java/com/example/nonisothermicalflow/materials/service/MaterialPropertyValueService.java:85-104 | a property value is removed exactly when the generic delete succeeds, and the catalogue stays valid |
| Catalogue.AddCoefficientValue | src/main/java/com/example/nonisothermicalflow/materials/service/MaterialCoefficientValueService.java:23-45 | a coefficient value is added exactly when the generic add succeeds, only the coefficient values change, and the catalogue stays valid |
| Catalogue.UpdateCoefficientValue | src/main/java/com/example/nonisothermicalflow/materials/service/MaterialCoefficientValueService.java:48-66 | a coefficient value is replaced exactly when the generic update succeeds, and the catalogue stays valid |
| Catalogue.DeleteCoefficientValue | src/main/java/com/example/nonisothermicalflow/materials/service/MaterialCoefficientValueService.java:85-104 | a coefficient value is removed exactly when the generic delete succeeds, and the catalogue stays valid |
| Catalogue.DeleteAllMaterialValues | src/main/java/com/example/nonisothermicalflow/materials/service/MaterialDeletionService.java:22-33 | with an id given, every property and coefficient value of that material goes, whether or not the material exists, and nothing else changes |
| Catalogue.DeleteAllPropertyValues | src/main/java/com/example/nonisothermicalflow/materials/service/MaterialDeletionService.java:36-46 | with an id given, every value of that property goes and nothing else changes |
| Catalogue.DeleteAllCoefficientValues | src/main/java/com/example/nonisothermicalflow/materials/service/MaterialDeletionService.java:49-59 | with an id given, every value of that coefficient goes and nothing else changes |
| Catalogue.CreateThenGetMaterial | src/main/java/com/example/nonisothermicalflow/materials/service/MaterialService.java:20-66 | a material with a free, non-blank name is created exactly when the entity is valid, and is then found under its new id with that name and type |
| Catalogue.BlankTypeRejected | src/main/java/com/example/nonisothermicalflow/materials/service/MaterialService.java:53-62 | the service checks the type only for null, so a blank type passes its checks and is refused as an invalid entity at the save |
| Catalogue.LongUnitRejected | src/main/java/com/example/nonisothermicalflow/materials/service/MaterialPropertyService.java:53-62 | a unit longer than 50 characters passes the service's checks and is refused as an invalid entity at the save |
| Catalogue.UpdateKeepingName | src/main/java/com/example/nonisothermicalflow/materials/service/MaterialService.java:89-98 | re-submitting a material's own name never counts as a duplicate: the update succeeds exactly when the entity with the new type is valid, and otherwise fails as an invalid entity |
| Catalogue.UpdateToOtherNameFails | src/main/java/com/example/nonisothermicalflow/materials/service/MaterialService.java:79-93 | renaming a material to another material's name fails, as blank when that name is blank and as a duplicate otherwise |
| Catalogue.AddThenDeletePropertyValue | src/main/java/com/example/nonisothermicalflow/materials/service/MaterialPropertyValueService.java:23-104 | deleting a value just added restores the catalogue exactly |
| Catalogue.AddTwiceFails | src/main/java/com/example/nonisothermicalflow/materials/service/MaterialPropertyValueService.java:32-36 | adding a second value for the same pair fails as a duplicate, while updating it gives what adding the second value first would have |
| Catalogue.UpdateTwice | src/main/java/com/example/nonisothermicalflow/materials/service/MaterialCoefficientValueService.java:48-66 | two updates of the same pair leave the catalogue as the second alone would |
| Catalogue.DeletedMaterialLeavesNothing | src/main/java/com/example/nonisothermicalflow/materials/service/MaterialService.java:105-120 | deleting a material of a valid catalogue always succeeds, leaves no value that refers to it, and frees its name |
| Users.FromString | src/main/java/com/example/nonisothermicalflow/users/model/UserRole.java:17-24 | the role found has exactly the given name; an unknown name fails with that name, and no role has it |
| Users.FromStringOfRoleName | src/main/java/com/example/nonisothermicalflow/users/model/UserRole.java:13-24 | reading a role's own name gives the role back |
| Users.RoleNameInjective | src/main/java/com/example/nonisothermicalflow/users/model/UserRole.java:3-15 | different roles have different names |
| Users.FromUserRole | src/main/java/com/example/nonisothermicalflow/users/model/Role.java:33-37 | the entity made from a role has no id yet and a name that reads back as the role |
| Users.ToUserRole | src/main/java/com/example/nonisothermicalflow/users/model/Role.java:29-31 | an entity converts exactly when its name is ADMIN or USER, to the role of that name |
| Users.ToUserRoleOfFromUserRole | src/main/java/com/example/nonisothermicalflow/users/model/Role.java:29-37 | converting a role to an entity and back gives the same role |
| Users.FindByUserRole | src/main/java/com/example/nonisothermicalflow/users/service/RoleService.java:34-36 | a stored role is found exactly when one has the role's name, and it is that one |
| Users.GetOrCreateRole | src/main/java/com/example/nonisothermicalflow/users/service/RoleService.java:44-50 | an existing role of that name is returned unchanged; otherwise one is added under the fresh id; either way the name maps to the id returned and no stored role is lost |
| Users.GetOrCreateRoleIdempotent | src/main/java/com/example/nonisothermicalflow/users/service/RoleService.java:44-50 | asking for the same role again changes nothing and returns the same id |
| Users.CreateUser | src/main/java/com/example/nonisothermicalflow/users/service/UserService.java:52-65 | creation fails exactly when the username is taken; otherwise the user is stored with the encoded password and the stored role of that name, and unique usernames are kept |
| Users.UpdateUser | src/main/java/com/example/nonisothermicalflow/users/service/UserService.java:87-108 | an unknown id fails; the update fails only for a new username another user has; a given username or password replaces the stored one and a blank one keeps it; a given role is looked up or created by `getOrCreateRole`, whose resulting role table the directory keeps and whose role the user gets; a missing role keeps the role and the table; no other user changes |
| Users.UpdateCredentials | src/main/java/com/example/nonisothermicalflow/users/service/UserService.java:68-84 | the overload without a role acts as the full update with no role, and never changes a role |
| Users.UpdateWithNothingGiven | src/main/java/com/example/nonisothermicalflow/users/service/UserService.java:87-108 | an update with nothing given leaves the directory as it was |
| SimulationForm.DefaultModel | frontend/src/components/simulation/SimulationPage.tsx:49-66 | the form starts with every field a material can fill |
| SimulationForm.HandleInputChange | frontend/src/components/simulation/SimulationPage.tsx:84-90 | typing sets the named field to parseFloat of the text and leaves every other field as it was |
| SimulationForm.ClearedFieldIsNaN | frontend/src/components/simulation/SimulationPage.tsx:88 | clearing a field stores NaN, and typing digits stores their value |
| SimulationForm.FirstMatch | frontend/src/components/simulation/SimulationPage.tsx:115-127 | a name picks the field of the first rule whose keyword it contains, and none exactly when it contains no keyword |
| SimulationForm.EarlierRuleWins | frontend/src/components/simulation/SimulationPage.tsx:131-145 | a name containing the keyword of a rule is always taken by that rule or an earlier one, so a coefficient named with both "c1" and "c2" fills the first VLF constant |
| SimulationForm.LastValueWins | frontend/src/components/simulation/SimulationPage.tsx:114-127 | when several values fill the same field, the field ends with the last of them |
| SimulationForm.UnfilledFieldKept | frontend/src/components/simulation/SimulationPage.tsx:111-148 | a field no value fills keeps its previous value |
| SimulationForm.OnlyRuleFieldsChange | frontend/src/components/simulation/SimulationPage.tsx:109-148 | applying values changes only the fields the rules name and adds no other field |
| SimulationForm.MatchInFields | frontend/src/components/simulation/SimulationPage.tsx:118-143 | the field a name picks is always one the rules fill |
| SimulationForm.PropertyAndCoefficientFieldsDisjoint | frontend/src/components/simulation/SimulationPage.tsx:118-143 | properties fill density, heat capacity, glass transition and melting temperatures; coefficients fill the five rheology and heat-transfer fields; the two sets do not meet |
| SimulationForm.ApplyKeepsParameters | frontend/src/components/simulation/SimulationPage.tsx:109-148 | applying a material to the starting form keeps its sixteen fields and never touches geometry, process parameters or the step |
| SimulationForm.StaysIn | frontend/src/components/simulation/SimulationPage.tsx:111-148 | filling fields that already exist adds no field |
| SimulationForm.CoefficientsKeepProperties | frontend/src/components/simulation/SimulationPage.tsx:114-146 | coefficients are applied after properties but never overwrite a property's field |
| ValueEditors.Validate | frontend/src/components/admin/MaterialCoefficientValuesEditor.tsx:90-108 | a save is refused with no selection, then with a blank value, then when Number gives NaN; otherwise the value is Number of the text |
| ValueEditors.ValidateDigits | frontend/src/components/admin/MaterialPropertyValuesEditor.tsx:96-114 | a selected entry with a run of digits is accepted as their value |
| ValueEditors.SaveCoefficientValue | frontend/src/components/admin/MaterialCoefficientValuesEditor.tsx:110-142 | a save succeeds exactly when the form is valid and the selected coefficient is in the catalogue |
| ValueEditors.SavedCoefficientValue | frontend/src/components/admin/MaterialCoefficientValuesEditor.tsx:124-142 | after a save the selected coefficient holds the typed value, distinct coefficients stay distinct, and every other entry stays |
| ValueEditors.SavePropertyValue | frontend/src/components/admin/MaterialPropertyValuesEditor.tsx:116-156 | a save succeeds exactly when the form is valid and the selected property is in the catalogue, and the value the server returns is in the list |
| ValueEditors.SavedPropertyValue | frontend/src/components/admin/MaterialPropertyValuesEditor.tsx:130-156 | when the server returns the saved property, it is found in the list with distinct properties kept |
| ValueEditors.DeleteValue | frontend/src/components/admin/MaterialCoefficientValuesEditor.tsx:174-176 | after a delete no entry has that coefficient or property |
| ValueEditors.DeleteUndoesNewCoefficient | frontend/src/components/admin/MaterialCoefficientValuesEditor.tsx:136-176 | deleting a coefficient value just added for a new coefficient gives the list back |
| FormChecks.FirstFailing | frontend/src/components/admin/tables/MathModelTable.tsx:146-178 | the first element failing the check is reported, with every earlier one passing; nothing is reported exactly when all pass |
| FormChecks.FirstInvalid | frontend/src/components/admin/tables/MathModelTable.tsx:152-177 | the first field, in form order, whose text is not a positive number is reported, and none exactly when all are valid |
| FormChecks.NumericInputIsPrefixBased | frontend/src/components/admin/tables/MathModelTable.tsx:102-105 | the numeric check reads only a leading number: a whole number followed by a unit passes exactly when the number is positive |
| FormChecks.NumericInputRejects | frontend/src/components/admin/tables/MathModelTable.tsx:102-105 | an empty field, and any text whose first character cannot begin a number (not white space, a sign, a digit, '.' or the I of Infinity), fails the numeric check |
| FormChecks.NegativeRejected | frontend/src/components/admin/tables/MathModelTable.tsx:102-105 | a negative number never passes the numeric check |
| Rows.FindIndex | frontend/src/components/admin/MaterialCoefficientValuesEditor.tsx:124-126 | the first index with the key, with no earlier row having it, or -1 exactly when no row has it |
| Rows.Remove | frontend/src/components/admin/tables/MathModelTable.tsx:241-243 | the handleDelete of the in-memory tables: no row with the key survives a removal |
| Rows.RemoveKeeps | frontend/src/components/admin/tables/MathModelTable.tsx:241-243 | every row with another key survives a removal |
| Rows.RemoveAdded | frontend/src/components/admin/tables/MathModelTable.tsx:211-243 | adding a row under a new key and removing that key again gives the list back |
| Rows.ReplaceWhereAt | frontend/src/components/admin/tables/MathModelTable.tsx:193-208 | rows with the key are rewritten and all others stay, position by position |
| Rows.ReplaceKeepsKeys | frontend/src/components/admin/tables/MathModelTable.tsx:193-208 | a rewrite that keeps ids keeps every row's id and keeps ids distinct |
| Rows.UpdateFound | frontend/src/components/admin/MaterialPropertyValuesEditor.tsx:144-146 | overwriting the found row keeps it findable at the same place, keeps keys distinct and leaves every other row |
| Rows.AppendNew | frontend/src/components/admin/MaterialCoefficientValuesEditor.tsx:136-141 | a row appended under a new key is found at the end and keys stay distinct |
| Rows.NextId | frontend/src/components/admin/tables/MathModelTable.tsx:212 | the next id is above every id in use, 1 for an empty table, and one more than an id in use otherwise |
| Rows.AppendNextId | frontend/src/components/admin/tables/MathModelTable.tsx:211-221 | a row added under the next id clashes with no existing row |
| Rows.FirstSeen | frontend/src/components/materials/MaterialsComparisonTable.tsx:49-63 | the rows kept by first key have distinct keys |
| Rows.FirstSeenCovers | frontend/src/components/materials/MaterialsComparisonTable.tsx:49-63 | every key of the input is kept |
| Rows.FirstSeenIsFirst | frontend/src/components/materials/MaterialsComparisonTable.tsx:52-58 | each kept row is the first row of the input with its key |
| Rows.FirstSeenOrder | frontend/src/components/materials/MaterialsComparisonTable.tsx:62 | the kept rows appear in the order their keys first appear |
| MathModelTable.Validate | frontend/src/components/admin/tables/MathModelTable.tsx:146-178 | the form is valid exactly when a material is chosen and all five numbers are positive; otherwise the missing material, or else the first bad field in form order, is reported |
| MathModelTable.Submit | frontend/src/components/admin/tables/MathModelTable.tsx:180-225 | a submit succeeds exactly when the form is valid and the material is known; adding appends one row after the others, editing keeps the row count |
| MathModelTable.AddThenDelete | frontend/src/components/admin/tables/MathModelTable.tsx:180-243 | an added row gets an id above all others, ids stay distinct, and deleting it restores the table |
| MathModelTable.EditRewritesRow | frontend/src/components/admin/tables/MathModelTable.tsx:191-208 | editing rewrites exactly the row with the form's id from the form and the chosen material, and keeps every id |
| ProcessParamsTable.InitialRows | frontend/src/components/admin/tables/ProcessParamsTable.tsx:33-37 | the starting rows have distinct ids, and the first row added gets id 4 |
| ProcessParamsTable.Validate | frontend/src/components/admin/tables/ProcessParamsTable.tsx:89-101 | the form is valid exactly when both numbers are positive; the cover speed is reported before the cover temperature |
| ProcessParamsTable.Submit | frontend/src/components/admin/tables/ProcessParamsTable.tsx:103-132 | a submit succeeds exactly when the form is valid; adding appends one row, editing keeps the row count |
| ProcessParamsTable.AddThenDelete | frontend/src/components/admin/tables/ProcessParamsTable.tsx:103-146 | an added row holds the parsed numbers under an id above all others, and deleting it restores the table |
| ProcessParamsTable.EditRewritesRow | frontend/src/components/admin/tables/ProcessParamsTable.tsx:108-120 | editing rewrites exactly the row with the form's id from the parsed numbers and keeps every id |
| UserMaterialsTable.InitialRows | frontend/src/components/user/tables/MaterialsTable.tsx:35-39 | the starting rows have distinct ids, and the first row added gets id 4 |
| UserMaterialsTable.Validate | frontend/src/components/user/tables/MaterialsTable.tsx:97-119 | the form is valid exactly when the name is non-empty and all three numbers are positive; otherwise the missing name, or else the first bad field, is reported |
| UserMaterialsTable.Submit | frontend/src/components/user/tables/MaterialsTable.tsx:121-155 | a submit succeeds exactly when the form is valid; adding appends one row, editing keeps the row count |
| UserMaterialsTable.AddThenDelete | frontend/src/components/user/tables/MaterialsTable.tsx:121-170 | an added row is the form's row under an id above all others, and deleting it restores the table |
| UserMaterialsTable.EditRewritesRow | frontend/src/components/user/tables/MaterialsTable.tsx:126-140 | editing rewrites exactly the row with the form's id and keeps every id |
| UserMaterialsTable.BlankNameAccepted | frontend/src/components/user/tables/MaterialsTable.tsx:97-101 | a name of one space passes, since the name is checked for emptiness and not trimmed |
| UsersTable.InitialUsers | frontend/src/components/admin/tables/UsersTable.tsx:30-34 | the starting users have distinct ids, and the first user added gets id 4 |
| UsersTable.Submit | frontend/src/components/admin/tables/UsersTable.tsx:88-109 | adding appends one user with the next id, the username and the role; editing keeps the user count |
| UsersTable.Press | frontend/src/components/admin/tables/UsersTable.tsx:213 | the save button acts exactly when username and role are filled and, when adding, a password too |
| UsersTable.EditForm | frontend/src/components/admin/tables/UsersTable.tsx:111-119 | the edit form carries the user's id and an empty password |
| UsersTable.Delete | frontend/src/components/admin/tables/UsersTable.tsx:122-124 | no user with the id remains |
| UsersTable.PasswordNotStored | frontend/src/components/admin/tables/UsersTable.tsx:88-109 | the password typed never reaches the table |
| UsersTable.EditUnchanged | frontend/src/components/admin/tables/UsersTable.tsx:111-119 | opening a user for editing and saving at once leaves the table unchanged |
| UsersTable.AddThenDelete | frontend/src/components/admin/tables/UsersTable.tsx:98-124 | ids stay distinct after an add, and deleting the added user restores the table |
| UsersTable.EditRewritesUser | frontend/src/components/admin/tables/UsersTable.tsx:89-97 | editing rewrites exactly the user with the form's id, keeping its id |
| AdminMaterialsTable.Validate | frontend/src/components/admin/tables/MaterialsTable.tsx:153-165 | the form is valid exactly when name and type are non-blank after JavaScript's trim, the name being checked first |
| AdminMaterialsTable.SubmitRequest | frontend/src/components/admin/tables/MaterialsTable.tsx:167-196 | a valid form sends its name and type, as an update exactly when editing with a non-empty id and as a creation otherwise |
| AdminMaterialsTable.EditForm | frontend/src/components/admin/tables/MaterialsTable.tsx:198-208 | the edit form carries the material's id |
| AdminMaterialsTable.EditSendsUpdate | frontend/src/components/admin/tables/MaterialsTable.tsx:167-208 | opening a complete material for editing and saving sends an update of that material with its own fields |
| AdminMaterialsTable.ControlCharacterNameRefusedByServer | frontend/src/components/admin/tables/MaterialsTable.tsx:153-157 | a name made of a control character passes the page's trim but is blank to the service's trim, so the server refuses it |
| AdminMaterialsTable.PageStricterThanServer | frontend/src/components/admin/tables/MaterialsTable.tsx:153-157 | a no-break space name is refused by the page although the service stores it; a blank type is refused by both, by the page and by the entity's validation at the save |
| AdminMaterialsTable.ExpandToggle | frontend/src/components/admin/tables/MaterialsTable.tsx:224-231 | toggling the open material closes it; toggling another opens it on the first tab |
| AdminMaterialsTable.ToggleTwice | frontend/src/components/admin/tables/MaterialsTable.tsx:224-231 | toggling a closed material twice closes it again, on the first tab |
| AdminMaterialsTable.MaterialUpdate | frontend/src/components/admin/tables/MaterialsTable.tsx:237-241 | the material with the updated one's id is replaced and all others stay |
| AdminMaterialsTable.UpdateKeepsIds | frontend/src/components/admin/tables/MaterialsTable.tsx:237-241 | replacing a listed material keeps ids distinct and the updated material is found under its id |
| MaterialsOverview.UniqueProperties | frontend/src/components/materials/MaterialsComparisonTable.tsx:49-63 | the property columns have distinct ids |
| MaterialsOverview.UniqueCoefficients | frontend/src/components/materials/MaterialsComparisonTable.tsx:66-84 | the coefficient columns have distinct ids |
| MaterialsOverview.PropertyColumnsComplete | frontend/src/components/materials/MaterialsComparisonTable.tsx:49-63 | every property any material has a value for gets a column |
| MaterialsOverview.PropertyColumnsFirstSeen | frontend/src/components/materials/MaterialsComparisonTable.tsx:49-63 | each property column is the first occurrence of its property, and columns follow first occurrence |
| MaterialsOverview.ValueOf | frontend/src/components/materials/MaterialsComparisonTable.tsx:87-100 | a cell is empty exactly when the material has no value list or no entry for the column; otherwise it shows the first such entry's value |
| MaterialsOverview.EntryCellFilled | frontend/src/components/materials/MaterialsComparisonTable.tsx:87-92 | every property a material has a value for shows a value in its row |
| MaterialsOverview.Columns | frontend/src/components/materials/MaterialsUnifiedTable.tsx:54-88 | the unified table's columns have distinct ids |
| MaterialsOverview.CellValue | frontend/src/components/materials/MaterialsUnifiedTable.tsx:91-101 | a property column reads the property values and a coefficient column the coefficient values |
| MaterialsOverview.ColumnsComplete | frontend/src/components/materials/MaterialsUnifiedTable.tsx:54-88 | every property and coefficient of every material gets a unified column |
| MaterialsOverview.SharedIdHidesCoefficient | frontend/src/components/materials/MaterialsUnifiedTable.tsx:61-82 | a coefficient sharing an id with a property already seen gets no column of its own |
| Text.Utf16LengthBmp | frontend/src/services/api/api.ts:48 | for text without astral characters the JavaScript length is the number of characters |
| AuthPages.MockUser | frontend/src/services/api/api.ts:25-35 | the emulated user has an id below 1000, the given username, one of the two display roles and a token carrying the time |
| AuthPages.Login | frontend/src/services/api/api.ts:39-54 | login succeeds exactly when username and password are non-empty and the password has at least 4 UTF-16 units |
| AuthPages.Signup | frontend/src/services/api/api.ts:56-75 | sign-up succeeds exactly when both are non-empty, the username has at least 3 units and the password at least 6 |
| AuthPages.SignedUpCanLogIn | frontend/src/services/api/api.ts:39-75 | anyone who can sign up can log in, and gets the same emulated user |
| AuthPages.AdminAnywhere | frontend/src/services/api/api.ts:27 | any name holding admin in any mix of cases, anywhere in it (admin, Admin, SYSADMIN), gets the administrator role |
| AuthPages.ResearcherWithoutA | frontend/src/services/api/api.ts:27 | any name without the letter a in either case, such as user1, gets the researcher role |
| AuthPages.CheckSignUp | frontend/src/components/auth/SignUp.tsx:28-46 | the form passes exactly when all three fields are filled, the passwords match, the username has at least 3 units and the password at least 6; an empty field is reported first |
| AuthPages.FormMatchesService | frontend/src/components/auth/SignUp.tsx:28-52 | a form that passes is accepted by the sign-up service, and a sign-up the service accepts passes the form when the confirmation matches |
| AuthPages.AstralUsername | frontend/src/services/api/api.ts:65 | two emoji make a username long enough, since each counts as two UTF-16 units |
| AuthPages.Guard | frontend/src/components/common/ProtectedRoute.tsx:27-53 | the page shows a spinner while loading, sends a signed-out visitor to login, and shows its content exactly when signed in with the required role or with no role required |
| AuthPages.MockAdminDeniedAdminPanel | frontend/src/services/api/api.ts:27 | an administrator signed in through the service gets the display role Администратор, so the route requiring ADMIN sends them home |
| AuthPages.CorrectedRole | frontend/src/services/api/api.ts:27 | the corrected role is the server's ADMIN exactly for the names the service treats as administrators |
| AuthPages.CorrectedLogin | frontend/src/services/api/api.ts:39-54 | the corrected login succeeds exactly when the service's does, and differs only in the role name |
| AuthPages.CorrectedAdminReachesPanel | frontend/src/App.tsx:75 | with the server's role names, a signed-in user reaches the administration panel exactly when the name contains admin in any case |

## Findings

| source | as written | input that shows it | evidently intended | confidence | as-written member | corrected member |
|---|---|---|---|---|---|---|
| frontend/src/services/api/api.ts:27 | the emulated service gives administrators the display role Администратор | sign in as admin with any password of four characters or more | the role ADMIN, which the route of the administration panel requires (frontend/src/App.tsx:75) | medium, not executed | AuthPages.MockAdminDeniedAdminPanel | AuthPages.CorrectedLogin, AuthPages.CorrectedAdminReachesPanel |

## Left out

- Files, directories, processes, JDBC connections and Docker. The model keeps what the services decide around them. Listings, process outcomes and whether a directory could be created are parameters.
- The clock, UUIDs and `Math.random`. The current time, fresh ids and the random number are parameters.
- BCrypt. The password encoder is the `encode` function parameter of `Users`.
- Floating point. Doubles and JavaScript numbers are exact reals, so IEEE rounding, `toFixed` for values of 1e21 and more, and overflow to infinity in arithmetic are not modelled.
- FlowSimulation.Derive: defined only when C2 and C2 + averageTemp − castingTemp are nonzero. Java divides by them and continues with infinite or NaN doubles, which exact reals cannot hold.
- FlowSimulation.SampleGrid: samples only models whose divisors (C2, C2 + averageTemp − castingTemp, b, Denominator1 and HeatFlow) are all nonzero. `FlowSimulation.RunSimulation` checks this before calling it, and also checks that chi is positive at every grid point. SampleGrid itself applies `ln` to whatever chi it meets.
- FlowSimulation.RunSimulation: a validated model with a zero divisor ends in `DivisionByZero` when its grid is non-empty. One whose chi is zero or negative at a grid point ends in `NonPositiveChi`. Java instead returns lists holding −Infinity or NaN values, and those values are not modelled.
- FlowSimulation.Outcome: a step count equal to Integer.MAX_VALUE gives `UnboundedGrid`. In Java the loop counter of MathService.java line 88 wraps around, and the loop runs until memory runs out. That is left as an error outcome rather than a non-terminating run.
- `exp`, `ln` and `pow`. They are uninterpreted, and only the laws the entrance of the channel needs are assumed, as a precondition.
- The timing and memory instrumentation of the simulation service (MathService.java lines 33-45 and 137-156). It does not affect the result.
- Deleting a backup, in all three backup services, and writing its metadata. Both are file operations with no decision beyond the lookup, which is modelled.
- `checkPostgresTools` and `isDockerAvailable`. Their outcomes enter as booleans.
- The restore's session settings, `clearAllTables` and its error handling (JdbcDatabaseBackupService.java lines 344-352, 377-391 and 399-409). These are database side effects.
- Astral characters in JavaScript strings. Each character is one UTF-16 unit, except in `Text.Utf16Length`, which counts surrogate pairs for the length checks.
- `Text.ToLower` lowers Latin and Cyrillic letters only. Other scripts' case mappings are not modelled.
- JPA entity merging, lazy loading and the `getAll` listings of the catalogue. These are plain repository reads.
- The server calls of the value editors and of the administrators' materials table. Their answers are parameters.
- `window.confirm`, the date formatting of the backup pages and the sort comparator of the backup panel. These are presentation concerns.
- The authentication context that stores the signed-in user. The route guard takes its state as parameters.
- A sample's independence of the grid size is not stated as a lemma. Instead, every sample is stated as the closed-form profile at its position.
- FileBackups.SortNewestFirst: states newest-first order and a permutation but not the stability of Java's sort.
- FileBackups.AllBackups: clock readings are whole seconds, while `LocalDateTime.now()` also carries a fraction of a second. Two undated files mapped within the same second therefore tie on createdAt in the model and keep directory order. In Java the later reading would almost always be larger and listed first. `FileBackups.LaterReadingListedFirst` covers only readings a whole second or more apart.
- FlowSimulation.ValidateParameters: the contract states only that a passing model has nonzero dimensions. Which fields take part is stated by `FlowSimulation.ValidationIgnoresOtherFields` and `FlowSimulation.ValidationAdmitsNonPositiveStep`.
- SqlDump.Escape: the contract states only that the text does not get shorter. Reading the escaped text back is the round-trip lemma `SqlDump.ReadEscaped`.
- DumpRestore.DumpRoundTrip: has preconditions on the tables. Table names, primary-key and result columns, cell values and foreign-key names must hold no line break (\n or \r). Every table must have at least one column. Every column definition (name, type, size, NOT NULL, DEFAULT) must be non-empty and free of line breaks. It must neither start nor end with a character up to U+0020, must not end in ';' and must not start with "--". The splitter reads line by line, trims, and treats ';' line ends and "--" lines specially; the dumper escapes none of these.
- BackupListing.ParseBackupName: createdAt is the argument list handed to `new Date`. Its normalisation is not modelled: years 0 to 99 mapping to 1900 onwards, a month or day out of range rolling over, and NaN giving an invalid date.
- DirectoryBackups.RestoreFromBackup: finds only a direct sub-folder of the backup root with exactly the given name. Java resolves the name as a path, so "", "." and ".." reach existing directories. For "", Java reports a missing dump where the model reports `BackupNotFound`.
