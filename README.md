# Prescription records: a verified model of the behaviour in the data models and admin site

The repository is a patient/doctor healthcare-records web application built on
Django: users with a role, patient and doctor profiles, doctor-patient connection
requests, diagnoses, prescriptions with line items, medications and
notifications. Nearly all of it is declarative field definitions. This project
models the parts that carry behaviour:

- `wrappers.dfy` (module `Wrappers`): `Option` for nullable columns and `Result`
  for database writes that can be refused.
- `models.dfy` (module `Models`, from `core/models.py`):
  - the five connection status choices and their stored codes;
  - the default status of a new connection;
  - the unique (patient, doctor) pair of the connection table;
  - the protect-on-delete rule between medications and prescription items;
  - the end date a prescription item derives when it is saved.
  `PrescriptionItem` is a class whose `Save` updates `endDate` in place.
  `Store` is a class holding the connection, medication and prescription-item
  tables as sequences; its `Valid()` states that the unique constraints and the
  medication foreign key hold, and every write preserves it.
- `admin.dfy` (module `Admin`, from `core/admin.py`): which profile inline the
  user admin page shows, and the shortened message in the notification list.

Calendar dates and timestamps are day numbers (`nat`). The current time, which
the source takes from the clock, is a parameter (`now`).

The end-date rule follows the code's truthiness test (`core/models.py:193`). A
duration value of 0 is false in Python, so it derives no end date
(`ZeroDurationDerivesNothing`). Likewise the unit column is free
text as far as `save` is concerned: an empty unit counts as absent, and any text
other than `days`, `weeks` or `months` (including `indefinite`) derives nothing.

## Model

| member | source | states |
|---|---|---|
| `Models.ConnectionStatus.Code` | core/models.py:80-89 | every status has a non-empty code that fits the 50-character status column |
| `Models.StatusFromCode` | core/models.py:80-86 | a stored code is read back only as the status whose code it is; codes outside the choices read as absent |
| `Models.StatusCodeRoundTrip` | core/models.py:80-86 | every one of the five statuses reads back from its own code, so no two statuses share a code |
| `Models.FindPair` | core/models.py:95 | the lookup finds a row linking the given patient and doctor exactly when one exists, and returns its position |
| `Models.Store.RequestConnection` | core/models.py:87-95 | a request for an already linked (patient, doctor) pair is refused with a unique violation and changes nothing; otherwise one row is appended in `pending_approval_by_doctor` with the request time and no response time; the table never holds two rows for one pair |
| `Models.DerivedEndDate` | core/models.py:192-200 | an end date already set is never changed; a derived end date is strictly after the start date and needs a non-zero duration and a unit of days, weeks or months |
| `Models.DaysRule` | core/models.py:194-195 | unit `days` with value v derives start + v |
| `Models.WeeksRule` | core/models.py:196-197 | unit `weeks` with value v derives start + 7·v |
| `Models.MonthsRule` | core/models.py:198-199 | unit `months` with value v derives start + 30·v, the fixed 30-day approximation |
| `Models.NoDerivation` | core/models.py:179-193 | with a unit outside days, weeks and months (`indefinite`, empty, absent or any other text), an absent or zero duration, or no start date, the end date stays unset |
| `Models.ZeroDurationDerivesNothing` | core/models.py:193 | a duration of 0 derives no end date, for any unit |
| `Models.DerivedEndDateIdempotent` | core/models.py:192-200 | saving a second time leaves the end date the first save produced |
| `Models.DerivedEndDateMonotone` | core/models.py:194-199 | for a fixed start and unit, a longer duration never gives an earlier end date |
| `Models.PrescriptionItem.Save` | core/models.py:192-199 | the new end date is the derived one of the old fields; start date, duration value and unit are unchanged |
| `Models.Store.SaveItem` | core/models.py:175-200 | the end date is derived first; the row is then written, or refused with a foreign-key violation when its medication does not exist; other tables are unchanged |
| `Models.Store.AddMedication` | core/models.py:136 | a medication whose name is already present is refused with a unique violation; otherwise it is appended under a fresh primary key |
| `Models.Store.DeleteMedication` | core/models.py:175 | deletion is refused with `Protected` while any prescription item refers to the medication, and otherwise removes exactly its row; every remaining item still finds its medication |
| `Models.RemoveMedication` | core/models.py:175 | the rows kept are exactly those with another key, the key is gone, and unique keys and names stay unique |
| `Models.Store.DeleteItem` | core/admin.py:133-139 | deleting an item removes exactly that item and keeps every other, and every remaining item still finds its medication |
| `Models.RemoveItem` | core/admin.py:208-209 | the items kept are exactly the others, none added |
| `Models.LastReferenceRemoved` | core/models.py:175 | once the last item referring to a medication is deleted, nothing refers to it, so deleting the medication is no longer refused |
| `Models.DeleteKeepsOthers` | core/models.py:175 | removing one medication keeps every other medication present and adds none |
| `Admin.GetInlines` | core/admin.py:66-72 | at most one inline; the patient inline exactly for an edited user with role `patient`, the doctor inline exactly for role `doctor`, none when adding a user or for any other role |
| `Admin.InlinesExclusive` | core/admin.py:66-72 | the patient and doctor inlines are never shown together |
| `Admin.AdminHasNoInline` | core/admin.py:68-72 | a user with role `admin` gets no inline |
| `Admin.MessageSummary` | core/admin.py:246-247 | a message of at most 75 characters is returned unchanged; a longer one becomes its first 75 characters followed by "...", so the result is 78 long exactly when the message is longer than 75, never longer than 78, and always starts with the first min(length, 75) characters of the message |

## Left out

- Connection status transitions (respond, terminate) and response timestamps: the source declares the states but has no code that changes them.
- Persistence itself (`super().save()`), migrations, ordering, and cascade deletes between tables; only the unique (patient, doctor) pair, unique medication names, the medication foreign key and the protect rule are modelled.
- Foreign keys from connections to patient and doctor profiles: profiles are not modelled, so patient and doctor are plain identifiers.
- Re-pointing a prescription item at another medication: the admin lets an item's medication be edited, but the model keeps it fixed per item (`PrescriptionItem.medication` is a constant); an item is instead deleted with `Store.DeleteItem` and saved anew.
- Cascade deletion of prescription items from their prescription, and of an item's notifications: prescriptions and notifications are not stored.
- Clock defaults (`timezone.now`, `auto_now_add`): the time is a parameter.
- Python's date range: `date + timedelta` raises past year 9999; day numbers are unbounded.
- Database-level validation of choices: Django does not check `choices` on `save`, so unit and role are free text in the model.
- Image, decimal-fee, e-mail uniqueness and authentication fields, `__str__` methods, and all admin display configuration (list columns, search, filters, fieldsets).
- Registration and login forms and views (`core/forms.py`, `core/views.py`): their behaviour lives in the web framework.
- `modelss.py`: a stale duplicate of `core/models.py` whose `save` is identical.
- `Admin.MessageSummary`: a Python string may hold lone surrogate code points, which a Dafny `string` (a sequence of Unicode scalar values) cannot; for every other text both count the same characters.
