/** Values the wrappers hand back to their callers instead of throwing.
    Every JavaScript function of the application catches its own exceptions and
    returns either `{ error }`, `{ success: true }` / `{ data }`, or an empty list. */
module Results {

  datatype Option<+T> = None | Some(value: T)

  /** The reasons a wrapper gives up, one per `throw` that the wrappers contain,
      plus the store's own "no row" answer to `.single()`. */
  datatype Error =
    | NotAuthenticated     // 'Пользователь не авторизован'
    | NotAdmin             // 'Нет прав администратора'
    | CannotDemoteSelf     // 'Нельзя снять права администратора у самого себя'
    | CannotDeleteSelf     // 'Нельзя удалить собственный аккаунт'
    | NoEditPermission     // 'Нет прав на редактирование этого подарка'
    | NoDeletePermission   // 'Нет прав на удаление ...'
    | RowNotFound          // `.single()` found no matching row
    | NoFileSelected       // 'Файл не выбран'
    | InvalidUrl           // 'Неверный формат URL'

  /** `{ error }` or a success that carries no value the callers use. */
  datatype Status = Done | Failed(error: Error)

  /** `{ error }` or a success that carries a value. */
  datatype Result<+T> = Ok(value: T) | Err(error: Error)
}
