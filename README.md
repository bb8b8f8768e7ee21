# Task manager and income tax slabs, modelled in Dafny

This project models two independent parts of a small Python repository.

**The task manager.** It is a Django application in which employers own employees and tasks.
- An employer creates, edits, deletes and lists tasks, and adds, edits, deletes and lists employees.
- An employee lists the tasks assigned to them and changes their status.
- Anyone can log in with a phone number and a password and receive a token.

The model holds the three tables in one class, `Models.Database`:
- users: id ↦ phone, password digest, role, optional employer, staff flags;
- tasks: id ↦ title, description, status, employer, employee, created and updated stamps;
- tokens: user id ↦ key.

The class's `Valid()` predicate states the table constraints:
- phone numbers are unique;
- every foreign key points at an existing user;
- an employer's id is smaller than its employees' ids, so the employer relation has no cycles;
- token keys are distinct.

The class's methods are the row-level operations the ORM offers: insert, save, delete with cascade, and get-or-create of a token. Module `Manager` holds the user manager, `Serializers` the serializers, `Permission` the two permission classes, and `Views` one method per view function. Each view behind a permission check takes the id of the logged-in user (`None` for an anonymous request) and the request's fields. `Views.Login`, which any request may reach, takes only the phone number and the password. A view returns a `Reply`: `Ok` with a body, `BadRequest`, `NotFound`, `Unauthorized`, `Forbidden` or `ServerError` (an exception that escapes the view). Its contract states the reply and the whole new state for every branch, the three tables and both id counters, and that `Valid()` is kept. A counter moves only on an insert, by one, so an id is never handed out twice.

The model follows the code where the code is looser than the design it was written for:
- `add_task` and `edit_task` accept any existing user as the employee. The user need not be the caller's employee or have the role `employee`.
- `edit_task` and `update_task_status` store the status string as sent. Only `add_task`, through its serializer, checks it against the choices.
- `create_user` does not require an employer for an employee.

**The income tax calculator.** `calculate_total_income_tax` applies 0% up to 2,50,000, 5% up to 5,00,000, 20% up to 10,00,000 and 30% above. It returns the tax and one breakdown line per slab the income reaches. Amounts are exact `real`s. The method is proved against `MarginalTax`, an independent definition that applies each rate to the part of the income inside its slab.

## Model

| member | source | states |
|---|---|---|
| `Models.MakePassword` | todo_app/tasks/manager.py:11 | setting a password stores a digest exactly when a password is given; no password stores the unusable marker |
| `Models.CheckMadePassword` | todo_app/tasks/manager.py:11 | the password just set passes the password check; the unusable marker matches no password |
| `Models.CheckPassword` | todo_app/tasks/views.py:123 | a raw password matches exactly when a digest is stored and hashing the raw password gives it; the unusable marker matches nothing |
| `Models.Touched` | todo_app/tasks/models.py:31-32 | saving a task sets `updated_at` to the current time, keeps `created_at` and changes nothing else |
| `Models.CascadeRemovesDependents` | todo_app/tasks/models.py:10-30 | after deleting a user, the user and its token are gone, no survivor has it as employer, and no task has it as employer or employee |
| `Models.CascadeIsLeast` | todo_app/tasks/models.py:10 | the deleted users are the smallest set that holds the target and every user whose employer it holds |
| `Models.CascadeKeepsReferences` | todo_app/tasks/models.py:10-30 | after the cascade every remaining employer key and task key points at a remaining user |
| `Models.Database.Valid` | todo_app/tasks/models.py:8-32 | the table constraints every mutating method keeps: ids below the next id, unique phone numbers (models.py:8), every employer key pointing at an existing user with a smaller id (models.py:10), both task keys pointing at existing users (models.py:29-30), tokens only for existing users and with distinct keys |
| `Models.Database.InsertUser` | todo_app/tasks/models.py:8-10 | the insert is refused, with no change, exactly when the phone is taken or the employer does not exist; otherwise exactly one row is added under the next id |
| `Models.Database.SaveUser` | todo_app/tasks/models.py:8 | a save replaces one user row and keeps the constraints |
| `Models.Database.InsertTask` | todo_app/tasks/models.py:31-32 | a new task gets the next id and both stamps equal to the current time; nothing else changes |
| `Models.Database.SaveTask` | todo_app/tasks/models.py:32 | a save replaces one task row, with `updated_at` refreshed |
| `Models.Database.DeleteTask` | todo_app/tasks/models.py:20-32 | deleting a task removes that row only |
| `Models.Database.DeleteUser` | todo_app/tasks/models.py:10-30 | deleting a user removes every user, task and token the cascading keys reach, and keeps the constraints |
| `Models.Database.GetOrCreateToken` | todo_app/tasks/views.py:126 | returns the existing key; otherwise it creates the token with the fresh key; `created` says which |
| `Permission.IsEmployer` | todo_app/tasks/permission.py:7-9 | a request passes when its user is logged in and has the role `employer` |
| `Permission.IsEmployee` | todo_app/tasks/permission.py:16-18 | a request passes when its user is logged in and has the role `employee` |
| `Permission.MemberPassesOwnRole` | todo_app/tasks/permission.py:7-18 | a logged-in user passes `IsEmployer` iff its role is `employer`, and `IsEmployee` iff its role is `employee` |
| `Permission.RolesExclusive` | todo_app/tasks/permission.py:7-18 | no requester passes both checks |
| `Permission.AnonymousPassesNeither` | todo_app/tasks/permission.py:7-18 | an anonymous requester passes neither check |
| `Manager.CreateUser` | todo_app/tasks/manager.py:6-13 | an empty phone raises `ValueError` with no change; a taken phone or a missing employer fails at save with no change; otherwise one user is added with the hashed password and the role and employer as passed, and its id is returned |
| `Manager.CreateSuperuser` | todo_app/tasks/manager.py:15-23 | `ValueError` exactly when the phone is empty, an integrity error exactly when it is taken; otherwise one user is added under the next id, with the default role, no employer, the hashed password and both staff flags set |
| `Serializers.SerializeTask` | todo_app/tasks/serializers.py:4-7 | the output has exactly the eight declared fields, including employer and employee |
| `Serializers.SerializeTaskRoundTrip` | todo_app/tasks/serializers.py:7 | the task row and its id can be read back from the output |
| `Serializers.SerializeAddedTask` | todo_app/tasks/serializers.py:9-12 | the add-task output has the declared fields, which do not include `employer`, with the same values as the full output |
| `Serializers.AddTaskInputFields` | todo_app/tasks/serializers.py:12 | the add-task form reads title, description, status and employee; `employer` is not an input |
| `Serializers.TaskFormValid` | todo_app/tasks/serializers.py:9-12 | the add-task form is valid when title and description are present and non-empty, the title is at most 255 characters (models.py:26), a given status is one of the choices, and the employee is an existing user |
| `Serializers.FormTask` | todo_app/tasks/views.py:23-25 | the saved task has the form's title and description, the caller as employer, the form's employee, the status given or `started`, and both stamps equal to now |
| `Serializers.FormTaskStatusIsChoice` | todo_app/tasks/models.py:21-28 | a task created through the validated form has a status among the choices |
| `Serializers.SerializeUser` | todo_app/tasks/serializers.py:14-18 | the output has exactly the fields id, phone_number and role, holding the user's id, phone and role name, and never the write-only password |
| `Serializers.SerializeUserHidesPassword` | todo_app/tasks/serializers.py:17-18 | the user output does not depend on the stored password |
| `Serializers.CreateFromUserForm` | todo_app/tasks/serializers.py:20-22 | `create` goes through `create_user`: `ValueError` exactly when the phone is empty, an integrity error exactly when it is taken; otherwise one user is added under the next id with the digest of the given password and the role given or the default |
| `Views.Admit` | todo_app/tasks/permission.py:3-18 | a view's permission classes admit exactly a logged-in caller of the required role; an anonymous caller is unauthenticated; any other caller is denied |
| `Views.CollectTasks` | todo_app/tasks/views.py:81-82 | lists each task the filter selects once, by ascending id, and no other task |
| `Views.CollectUsers` | todo_app/tasks/views.py:213-214 | lists each user the filter selects once, by ascending id, and no other user |
| `Views.AddTask` | todo_app/tasks/views.py:15-27 | with a valid form, adds one task whose employer is the caller; an invalid form gives 400 with no change |
| `Views.Edited` | todo_app/tasks/views.py:44-47 | an edit sets title, description, status and employee to the form's values; it keeps the employer and the stamps |
| `Views.EditTask` | todo_app/tasks/views.py:29-54 | changes a task only if the caller owns it, all four fields are truthy and the employee exists; then all four are replaced together and `updated_at` is refreshed; otherwise 404 or 400 with no change |
| `Views.DeleteTaskAsWritten` | todo_app/tasks/views.py:57-71 | `delete_task` as written: the caller's own task is removed as in `DeleteTask`; a missing or foreign task gives a server error with no change |
| `Views.DeleteTaskMissCompared` | todo_app/tasks/views.py:66-71 | on a task the employer does not own, the code as written replies with a server error where the intended handler replies 404, and neither changes the store |
| `Views.DeleteTask` | todo_app/tasks/views.py:57-71 | removes only the caller's task with that id and leaves every other task; any other id gives 404 with no change |
| `Views.ViewTasks` | todo_app/tasks/views.py:73-83 | returns exactly the tasks whose employer is the caller |
| `Views.ViewEmployeeTasks` | todo_app/tasks/views.py:85-95 | returns exactly the tasks whose employee is the caller |
| `Views.UpdateTaskStatus` | todo_app/tasks/views.py:97-111 | only the assignee reaches the task; the status becomes the value sent, whatever it was; nothing but status and `updated_at` changes; a missing status gives 400 with no change |
| `Views.Authenticate` | todo_app/tasks/views.py:121-123 | returns a user exactly when both fields are present and the user with that phone has a password that matches |
| `Views.Login` | todo_app/tasks/views.py:113-134 | valid credentials return the user's existing token or a newly created one, with the id and role; invalid ones give 401 and create no token |
| `Views.LoginTwice` | todo_app/tasks/views.py:126 | two logins in a row with the same credentials give the same reply and the same token |
| `Views.AddEmployee` | todo_app/tasks/views.py:136-159 | a missing or empty phone or password, or a taken phone, gives 400 with no change; otherwise exactly one user is added, with role `employee`, the caller as employer and the hashed password |
| `Views.DeleteEmployee` | todo_app/tasks/views.py:161-175 | deletes only the caller's own employee, with the cascade; any other target gives 404 with no change |
| `Views.EditedEmployee` | todo_app/tasks/views.py:191-200 | a truthy phone replaces the phone; a truthy password replaces the digest; an omitted field keeps its value; every other column (role, employer, staff flags) is kept |
| `Views.EditEmployee` | todo_app/tasks/views.py:177-203 | only the caller's own employee is reached (else 404); a phone held by another user gives 400 and changes neither phone nor password; the employee's own phone is accepted |
| `Views.ViewEmployees` | todo_app/tasks/views.py:205-215 | returns exactly the users with the caller as employer and role `employee`, without passwords |
| `IncomeTax.CalculateTotalIncomeTax` | Que2Sol.py:1-34 | the tax equals the slab-by-slab reference and the sum of the breakdown's tax figures; the amounts add up to the income; there is one line plus one per limit exceeded, in slab order; each amount is the income's part in its slab and within the slab's width |
| `IncomeTax.NoTaxInFirstSlab` | Que2Sol.py:11-12 | an income up to 2,50,000 pays no tax |
| `IncomeTax.MarginalTaxMonotone` | Que2Sol.py:17-32 | the tax never decreases as the income grows |
| `IncomeTax.MarginalTaxBounds` | Que2Sol.py:17-32 | for a non-negative income the tax is between 0 and 30% of the income |
| `IncomeTax.TaxAtTenLakh` | Que2Sol.py:17-26 | an income of 10,00,000 pays 1,12,500 |

## Left out

- The authentication layer that turns a request's token into a user is configured in the project settings, which are not part of this model. Each view takes the resolved caller id, or `None` for an anonymous request.
- An anonymous caller gets `Unauthorized` and a caller with the wrong role gets `Forbidden`. The exact codes depend on the authentication classes configured in settings.
- HTTP details are not modelled: status codes (200, 201, 205), message texts and response wrapping. A `Reply` names only the kind of response.
- Request values arrive already typed: text fields as strings, ids as integers. Type coercion, `null` values and the serializer's trimming of whitespace are not modelled. A field counts as truthy when it is present and non-empty (non-zero for an id).
- The password hasher is a function value given to the database. Its algorithm is not modelled, nor is whether two passwords can share a digest.
- Token keys are random in the source. Here they are a `freshKey` parameter that must not already be in use.
- `Views.Login`: its requirement that `freshKey` be unused stands in for the key generator. A colliding key would fail at the database.
- `is_active`, `username` and the other inherited user columns are not modelled. Every user is active.
- Column length limits enforced by the database (phone 15, status 10) are not modelled. The 255-character title limit is checked by the add-task serializer and is modelled.
- `Models.Database.InsertTask`, `Models.Database.SaveTask` and `Models.Database.SaveUser` require the foreign keys and the unique phone that their callers have already checked. They do not model the database's integrity error on those paths.
- `Views.ViewTasks`, `Views.ViewEmployeeTasks` and `Views.ViewEmployees` list rows by ascending id. The source leaves the order to the database.
- `Views.DeleteTask` models the evidently intended 404 for a missing or foreign task (see Findings). `Views.DeleteTaskAsWritten` models the code as written.
- Wall-clock time is not modelled. Each mutation takes the current time as an integer `now`.
- Concurrent requests are not modelled: the model is sequential, so the races on get-or-create and on the phone check do not arise.
- The `print` in `edit_task` is not modelled.
- The URL routing is not modelled.
- Float rounding of the tax figures is not modelled: amounts are exact reals.
- The tax calculator's console functions are not modelled: `display_tax_breakdown`, `get_user_income` and `start_income_tax_calculator`. Only their non-negative income precondition is used, by `IncomeTax.MarginalTaxBounds`.
- The riddle game (Que1Sol.py) is not modelled. It is interactive console input and random choice with no state worth stating.

## Findings

| source | as written | input that shows it | evidently intended | confidence | as-written member | corrected member |
|---|---|---|---|---|---|---|
| todo_app/tasks/views.py:70 | `delete_task` catches `UserProfile.DoesNotExist`, but a failed task lookup raises `Task.DoesNotExist`, so the exception escapes as a server error | an employer deletes a task id that does not exist or that belongs to another employer | reply 404 "Task not found…" and leave the store unchanged | high; not executed | `Views.DeleteTaskAsWritten` | `Views.DeleteTask` |
